/**
 What the unlocked test of `log_write` can do. Two processes pass it together when the log
 has one slot left, and both append: the list is one block longer than the log. With a
 buffer to spare the commit copies the last block over the first block behind the log,
 before any header is written; without one it stops before its first copy.
 */
module LogOverrun {
  import opened LogFormat
  import opened LogProtocol
  import opened LogSafety
  import opened LogTheorems
  import opened LogReservation
  import opened LogReservationGap
  import opened Options

  /** The sizes at which two processes can both take the last slot. */
  ghost predicate Racy(g: Geometry, ops: nat) {
    Sized(g, ops) && 2 <= ops && 2 <= g.nlog <= g.logSize
  }

  function Ones(g: Geometry): Block {
    seq(g.words, _ => 1)
  }

  // ----- several steps at a time -----

  /** What a bread that misses makes of the cache `c`, from which the victim is gone. */
  function Loading(s: State, c: map<nat, Buf>, p: Pid, b: nat): State {
    s.(cache := c[b := Buf(DiskAt(s.disk, b), true, false, Some(p), false)])
  }

  lemma BreadSteps(g: Geometry, s: State, p: Pid, b: nat, v: Option<nat>, c: map<nat, Buf>)
    requires MayRun(s, p) && b < g.nblocks && b !in s.cache && Room(g, s, b, v)
    requires c == if v.Some? then s.cache - {v.value} else s.cache
    ensures Enabled(g, s, Miss(p, b, v))
    ensures var s1 := Do(g, s, Miss(p, b, v));
      Enabled(g, s1, Load(p, b)) && Do(g, s1, Load(p, b)) == Loading(s, c, p, b)
  {
    var s1 := Do(g, s, Miss(p, b, v));
    assert s1.cache[b] == Buf([], false, false, Some(p), false);
    assert s1.cache[b := Buf(DiskAt(s.disk, b), true, false, Some(p), false)] == Loading(s, c, p, b).cache;
  }

  lemma Bread(g: Geometry, states: seq<State>, steps: seq<Step>, s: State, p: Pid, b: nat, v: Option<nat>,
              c: map<nat, Buf>) returns (ss: seq<State>, ts: seq<Step>)
    requires Built(g, states, steps) && s == states[|steps|]
    requires MayRun(s, p) && b < g.nblocks && b !in s.cache && Room(g, s, b, v)
    requires c == if v.Some? then s.cache - {v.value} else s.cache
    ensures Built(g, ss, ts) && ss[|ts|] == Loading(s, c, p, b)
  {
    BreadSteps(g, s, p, b, v, c);
    ss, ts := Extend(g, states, steps, Miss(p, b, v));
    ss, ts := Extend(g, ss, ts, Load(p, b));
  }

  /** Process q changes a block it holds and passes the test with it. */
  function Waiting(g: Geometry, s: State, q: Pid, c: nat): State
    requires q in s.ops && c in s.cache
  {
    s.(cache := s.cache[c := s.cache[c].(data := Ones(g), touched := true)],
       ops := s.ops[q := s.ops[q].(passed := Some(c))])
  }

  lemma FirstSteps(g: Geometry, s: State, q: Pid, c: nat)
    requires q in s.ops && Idle(s, q) && s.ops[q].used < g.maxOp && !TooBig(g, s)
    requires g.Home(c) && HoldsValid(s, q, c)
    ensures Enabled(g, s, Modify(q, c, Ones(g)))
    ensures var s1 := Do(g, s, Modify(q, c, Ones(g)));
      && Enabled(g, s1, Test(q, c)) && WithinQuota(g, s1, Test(q, c))
      && Do(g, s1, Test(q, c)) == Waiting(g, s, q, c)
  {
  }

  lemma FirstTest(g: Geometry, states: seq<State>, steps: seq<Step>, s: State, q: Pid, c: nat)
    returns (ss: seq<State>, ts: seq<Step>)
    requires Built(g, states, steps) && s == states[|steps|]
    requires q in s.ops && Idle(s, q) && s.ops[q].used < g.maxOp && !TooBig(g, s)
    requires g.Home(c) && HoldsValid(s, q, c)
    ensures Built(g, ss, ts) && ss[|ts|] == Waiting(g, s, q, c)
  {
    FirstSteps(g, s, q, c);
    ss, ts := Extend(g, states, steps, Modify(q, c, Ones(g)));
    ss, ts := Extend(g, ss, ts, Test(q, c));
  }

  lemma Grab(g: Geometry, states: seq<State>, steps: seq<Step>, s: State, p: Pid, b: nat)
    returns (ss: seq<State>, ts: seq<Step>)
    requires Built(g, states, steps) && s == states[|steps|]
    requires MayRun(s, p) && b in s.cache && s.cache[b].busy.None?
    ensures Built(g, ss, ts) && ss[|ts|] == s.(cache := s.cache[b := s.cache[b].(busy := Some(p))])
  {
    ss, ts := Extend(g, states, steps, Hit(p, b));
  }

  lemma Drop(g: Geometry, states: seq<State>, steps: seq<Step>, s: State, p: Pid, b: nat)
    returns (ss: seq<State>, ts: seq<Step>)
    requires Built(g, states, steps) && s == states[|steps|]
    requires Idle(s, p) && Holds(s, p, b) && !s.cache[b].touched
    ensures Built(g, ss, ts) && ss[|ts|] == s.(cache := s.cache[b := Free(s.cache[b])])
  {
    ss, ts := Extend(g, states, steps, Release(p, b));
  }

  lemma WholeCall(g: Geometry, states: seq<State>, steps: seq<Step>, s: State, p: Pid, b: nat)
    returns (ss: seq<State>, ts: seq<Step>)
    requires Built(g, states, steps) && s == states[|steps|]
    requires p in s.ops && Idle(s, p) && s.ops[p].used < g.maxOp && !TooBig(g, s) && g.Home(b) && HoldsValid(s, p, b)
    ensures Built(g, ss, ts) && ss[|ts|] == Called(s, p, b)
  {
    Call(g, s, p, b);
    ss, ts := Extend(g, states, steps, Test(p, b));
    ss, ts := Extend(g, ss, ts, LogWrite(p, b));
  }

  lemma LateStep(g: Geometry, s: State, q: Pid, c: nat)
    requires q in s.ops && s.ops[q].passed == Some(c) && s.ops[q].used < g.maxOp && g.Home(c) && HoldsValid(s, q, c)
    ensures Enabled(g, s, LogWrite(q, c)) && WithinQuota(g, s, LogWrite(q, c))
    ensures Do(g, s, LogWrite(q, c)) == Called(s, q, c)
  {
  }

  /** Process q appends the block it tested for earlier. */
  lemma LateAppend(g: Geometry, states: seq<State>, steps: seq<Step>, s: State, q: Pid, c: nat)
    returns (ss: seq<State>, ts: seq<Step>)
    requires Built(g, states, steps) && s == states[|steps|]
    requires q in s.ops && s.ops[q].passed == Some(c) && s.ops[q].used < g.maxOp && g.Home(c) && HoldsValid(s, q, c)
    ensures Built(g, ss, ts) && ss[|ts|] == Called(s, q, c)
  {
    LateStep(g, s, q, c);
    ss, ts := Extend(g, states, steps, LogWrite(q, c));
  }

  // ----- both processes pass the test, then both append -----

  /** One block more than the log has slots is listed, and the last of them was changed. */
  ghost predicate Overrun(g: Geometry, lh: seq<nat>, cache: map<nat, Buf>) {
    && 2 <= g.nlog && |lh| == g.nlog && (forall k :: 0 <= k < |lh| ==> lh[k] == Blk(g, k))
    && Loaded(g, cache, g.nlog - 1)
    && cache[Blk(g, g.nlog - 1)].data == Ones(g)
  }

  /** Operations `k` to `n` are still running. */
  ghost predicate Ending(ops: map<Pid, Op>, k: nat, n: nat) {
    && (forall p: Pid :: p in ops <==> k <= p < n)
    && (forall p :: p in ops ==> ops[p].passed.None?)
  }

  lemma TwoLoggers(g: Geometry, ops: nat, i: nat) returns (p: nat, q: nat)
    requires Sized(g, ops) && 2 <= ops && i + 1 < g.logSize
    ensures p < ops && q < ops && p != q && UsedBy(ops, i, p) < g.maxOp && UsedBy(ops, i, q) < g.maxOp
  {
    p := Logger(g, ops, i);
    q := Logger(g, ops, i + 1);
    DivStep(i, ops);
  }

  lemma OverrunCache(g: Geometry, s: State, ops: nat, r: State)
    requires 2 <= g.nlog && 1 <= ops && Level(g, s, ops, g.nlog - 2)
    requires var b, c := Blk(g, g.nlog - 2), Blk(g, g.nlog - 1);
      && b in s.cache
      && r.lh == s.lh + [b] + [c]
      && r.cache == s.cache[b := s.cache[b].(dirty := true)][c := Buf(Ones(g), true, true, None, false)]
    ensures Overrun(g, r.lh, r.cache)
  {
    var i := g.nlog - 2;
    var b, c := Blk(g, i), Blk(g, i + 1);
    UpdateSize(s.cache, b, s.cache[b].(dirty := true));
    UpdateSize(s.cache[b := s.cache[b].(dirty := true)], c, Buf(Ones(g), true, true, None, false));
  }

  /** The two calls, interleaved: q tests, p calls, q appends. */
  lemma Race(g: Geometry, states: seq<State>, steps: seq<Step>, s: State, p: Pid, b: nat, q: Pid, c: nat)
    returns (ss: seq<State>, ts: seq<Step>)
    requires Built(g, states, steps) && s == states[|steps|] && !TooBig(g, s) && p != q && b != c
    requires p in s.ops && Idle(s, p) && s.ops[p].used < g.maxOp && g.Home(b) && HoldsValid(s, p, b)
    requires q in s.ops && Idle(s, q) && s.ops[q].used < g.maxOp && g.Home(c) && HoldsValid(s, q, c)
    ensures Built(g, ss, ts) && ss[|ts|] == Called(Called(Waiting(g, s, q, c), p, b), q, c)
  {
    ss, ts := FirstTest(g, states, steps, s, q, c);
    ss, ts := WholeCall(g, ss, ts, Waiting(g, s, q, c), p, b);
    ss, ts := LateAppend(g, ss, ts, Called(Waiting(g, s, q, c), p, b), q, c);
  }

  /** Before the race: p holds the last loaded block and q has loaded one more. */
  function Before(g: Geometry, s: State, p: Pid, b: nat, q: Pid, c: nat): State
    requires b in s.cache
  {
    s.(cache := s.cache[c := Buf(DiskAt(s.disk, c), true, false, Some(q), false)][b := s.cache[b].(busy := Some(p))])
  }

  lemma Prepared(g: Geometry, states: seq<State>, steps: seq<Step>, s: State, p: Pid, b: nat, q: Pid, c: nat)
    returns (ss: seq<State>, ts: seq<Step>)
    requires Built(g, states, steps) && s == states[|steps|] && s.phase.Running? && p != q && b != c
    requires Idle(s, p) && Idle(s, q) && b in s.cache && s.cache[b].busy.None?
    requires c < g.nblocks && c !in s.cache && |s.cache| < g.nbuf
    ensures Built(g, ss, ts) && ss[|ts|] == Before(g, s, p, b, q, c)
  {
    ss, ts := Bread(g, states, steps, s, q, c, None, s.cache);
    ss, ts := Grab(g, ss, ts, Loading(s, s.cache, q, c), p, b);
  }

  /** After the race both buffers are released. */
  lemma Released(g: Geometry, states: seq<State>, steps: seq<Step>, s: State, p: Pid, b: nat, q: Pid, c: nat)
    returns (ss: seq<State>, ts: seq<Step>)
    requires Built(g, states, steps) && s == states[|steps|] && b != c
    requires Idle(s, p) && Idle(s, q) && Holds(s, p, b) && Holds(s, q, c) && !s.cache[b].touched && !s.cache[c].touched
    ensures Built(g, ss, ts) && ss[|ts|] == s.(cache := s.cache[b := Free(s.cache[b])][c := Free(s.cache[c])])
  {
    ss, ts := Drop(g, states, steps, s, p, b);
    ss, ts := Drop(g, ss, ts, s.(cache := s.cache[b := Free(s.cache[b])]), q, c);
  }

  /** The state after the race, in terms of the state before. */
  lemma RaceResult(g: Geometry, s: State, p: Pid, b: nat, q: Pid, c: nat, r: State)
    requires p != q && b != c && p in s.ops && q in s.ops && b in s.cache && c !in s.cache && b !in s.lh && c !in s.lh
    requires s.cache[b].busy.None? && s.cache[b].valid && !s.cache[b].touched
    requires r == Called(Called(Waiting(g, Before(g, s, p, b, q, c), q, c), p, b), q, c)
    ensures r.phase == s.phase && r.lh == s.lh + [b] + [c]
    ensures Holds(r, p, b) && Holds(r, q, c) && !r.cache[b].touched && !r.cache[c].touched
    ensures r.cache[b := Free(r.cache[b])][c := Free(r.cache[c])]
         == s.cache[b := s.cache[b].(dirty := true)][c := Buf(Ones(g), true, true, None, false)]
    ensures r.ops.Keys == s.ops.Keys && r.ops[p].passed.None? && r.ops[q].passed.None?
    ensures forall o :: o in s.ops && o != p && o != q ==> r.ops[o] == s.ops[o]
  {
  }

  /** What the race leaves behind. */
  ghost predicate Raced(g: Geometry, s: State, p: Pid, b: nat, q: Pid, c: nat, r: State) {
    && r.phase == s.phase && r.lh == s.lh + [b] + [c]
    && b in s.cache
    && r.cache == s.cache[b := s.cache[b].(dirty := true)][c := Buf(Ones(g), true, true, None, false)]
    && r.ops.Keys == s.ops.Keys
    && (forall o :: o in r.ops ==> ((o == p || o == q) && r.ops[o].passed.None?) || r.ops[o] == s.ops[o])
  }

  lemma RaceThrough(g: Geometry, states: seq<State>, steps: seq<Step>, s: State, p: Pid, b: nat, q: Pid, c: nat)
    returns (ss: seq<State>, ts: seq<Step>)
    requires Built(g, states, steps) && s == states[|steps|] && s.phase.Running? && !TooBig(g, s) && p != q && b != c
    requires p in s.ops && Idle(s, p) && s.ops[p].used < g.maxOp && g.Home(b)
    requires q in s.ops && Idle(s, q) && s.ops[q].used < g.maxOp && g.Home(c)
    requires b !in s.lh && c !in s.lh && c !in s.cache && |s.cache| < g.nbuf
    requires b in s.cache && s.cache[b].busy.None? && s.cache[b].valid && !s.cache[b].touched
    ensures Built(g, ss, ts) && Raced(g, s, p, b, q, c, ss[|ts|])
  {
    ss, ts := Prepared(g, states, steps, s, p, b, q, c);
    ss, ts := Race(g, ss, ts, Before(g, s, p, b, q, c), p, b, q, c);
    var r := ss[|ts|];
    RaceResult(g, s, p, b, q, c, r);
    ss, ts := Released(g, ss, ts, r, p, b, q, c);
  }

  lemma Overrunning(g: Geometry, ops: nat) returns (states: seq<State>, steps: seq<Step>)
    requires Racy(g, ops)
    ensures Built(g, states, steps)
    ensures states[|steps|].phase.Running? && Ending(states[|steps|].ops, 0, ops)
    ensures Overrun(g, states[|steps|].lh, states[|steps|].cache)
  {
    var i := g.nlog - 2;
    states, steps := LogBlocks(g, ops, i);
    var s := states[|steps|];
    var p, q := TwoLoggers(g, ops, i);
    LevelFacts(g, s, ops, p, q);
    states, steps := RaceThrough(g, states, steps, s, p, Blk(g, i), q, Blk(g, i + 1));
    OverrunCache(g, s, ops, states[|steps|]);
    RacedOps(g, s, ops, p, q, states[|steps|]);
  }

  lemma RacedOps(g: Geometry, s: State, ops: nat, p: Pid, q: Pid, r: State)
    requires 2 <= g.nlog && 1 <= ops && Turns(s, ops, g.nlog - 2)
    requires Raced(g, s, p, Blk(g, g.nlog - 2), q, Blk(g, g.nlog - 1), r)
    ensures Ending(r.ops, 0, ops)
  {
    assert forall o: Pid :: o in r.ops <==> o in s.ops;
  }

  lemma LevelFacts(g: Geometry, s: State, ops: nat, p: Pid, q: Pid)
    requires Racy(g, ops) && Level(g, s, ops, g.nlog - 2) && p < ops && q < ops && p != q
    requires UsedBy(ops, g.nlog - 2, p) < g.maxOp && UsedBy(ops, g.nlog - 2, q) < g.maxOp
    ensures p in s.ops && q in s.ops && Idle(s, p) && Idle(s, q) && !TooBig(g, s)
    ensures s.ops[p].used < g.maxOp && s.ops[q].used < g.maxOp
    ensures var b, c := Blk(g, g.nlog - 2), Blk(g, g.nlog - 1);
      && g.Home(b) && g.Home(c) && b !in s.lh && c !in s.lh && c !in s.cache && |s.cache| < g.nbuf
      && b in s.cache && s.cache[b].busy.None? && s.cache[b].valid && !s.cache[b].touched
  {
  }

  // ----- the operations end and the commit starts -----

  lemma EndNext(g: Geometry, ops: nat, k: nat, s: State)
    requires k < ops && s.phase.Running? && Ending(s.ops, k, ops) && Overrun(g, s.lh, s.cache)
    ensures Enabled(g, s, EndOp(k))
    ensures var r := Do(g, s, EndOp(k));
      && r.lh == s.lh && r.cache == s.cache
      && (if k + 1 < ops then r.phase.Running? && Ending(r.ops, k + 1, ops)
          else r.phase == CopyLog(0) && r.ops == map[])
  {
    var r := s.ops - {k};
    assert forall b :: b in s.cache ==> s.cache[b].busy.None?;
    if k + 1 < ops {
      assert k + 1 in r;
    } else {
      assert r == map[];
    }
  }

  lemma EndStep(g: Geometry, ops: nat, k: nat, states: seq<State>, steps: seq<Step>, s: State)
    returns (ss: seq<State>, ts: seq<Step>, r: State)
    requires k < ops && Built(g, states, steps) && s == states[|steps|]
    requires s.phase.Running? && Ending(s.ops, k, ops) && Overrun(g, s.lh, s.cache)
    ensures Built(g, ss, ts) && r == ss[|ts|]
    ensures r.lh == s.lh && r.cache == s.cache
    ensures if k + 1 < ops then r.phase.Running? && Ending(r.ops, k + 1, ops)
            else r.phase == CopyLog(0) && r.ops == map[]
  {
    EndNext(g, ops, k, s);
    ss, ts := Extend(g, states, steps, EndOp(k));
    r := ss[|ts|];
  }

  lemma {:induction false} EndUpTo(g: Geometry, ops: nat, k: nat) returns (states: seq<State>, steps: seq<Step>)
    requires Racy(g, ops) && k < ops
    ensures Built(g, states, steps)
    ensures states[|steps|].phase.Running? && Ending(states[|steps|].ops, k, ops)
    ensures Overrun(g, states[|steps|].lh, states[|steps|].cache)
  {
    if k == 0 {
      states, steps := Overrunning(g, ops);
    } else {
      states, steps := EndUpTo(g, ops, k - 1);
      var r;
      states, steps, r := EndStep(g, ops, k - 1, states, steps, states[|steps|]);
    }
  }

  /** The list does not fit the log and the commit is about to copy it there. */
  lemma CommitStarts(g: Geometry, ops: nat) returns (states: seq<State>, steps: seq<Step>)
    requires Racy(g, ops)
    ensures Built(g, states, steps)
    ensures Copied(g, states[|steps|], states[|steps|].cache, 0)
  {
    states, steps := EndUpTo(g, ops, ops - 1);
    var r;
    states, steps, r := EndStep(g, ops, ops - 1, states, steps, states[|steps|]);
  }

  // ----- with a spare buffer the commit runs over the end of the log -----

  /** The buffers of the logged blocks, and the one of the log block written last. */
  ghost predicate Slotted(g: Geometry, cache: map<nat, Buf>, base: map<nat, Buf>, t: nat) {
    if t == 0 then cache == base
    else
      && g.logStart + t in cache && cache[g.logStart + t].busy.None? && !cache[g.logStart + t].dirty
      && cache == base[g.logStart + t := cache[g.logStart + t]]
  }

  ghost predicate Copied(g: Geometry, s: State, base: map<nat, Buf>, t: nat) {
    && s.phase == CopyLog(t) && s.ops == map[]
    && Overrun(g, s.lh, base) && Slotted(g, s.cache, base, t)
  }

  function Victim(g: Geometry, t: nat): Option<nat> {
    if t == 0 then None else Some(g.logStart + t)
  }


  lemma CopyStep(g: Geometry, states: seq<State>, steps: seq<Step>, s: State, from: nat, to: nat, t: nat)
    returns (ss: seq<State>, ts: seq<Step>)
    requires Built(g, states, steps) && s == states[|steps|] && s.phase == CopyLog(t) && t < |s.lh|
    requires from == s.lh[t] && to == g.logStart + 1 + t < g.nblocks && from != to
    requires HoldsValid(s, s.owner, from) && HoldsValid(s, s.owner, to)
    ensures Built(g, ss, ts)
    ensures ss[|ts|] == CopyBlock(s, from, to).(phase := AfterCopyLog(t, |s.lh|))
  {
    CopyOne(g, s, from, to, t);
    ss, ts := ExtendAny(g, states, steps, CopyToLog);
  }

  lemma CopyOne(g: Geometry, s: State, from: nat, to: nat, t: nat)
    requires Pristine(g, s) && s.phase == CopyLog(t) && t < |s.lh|
    requires from == s.lh[t] && to == g.logStart + 1 + t < g.nblocks && from != to
    requires HoldsValid(s, s.owner, from) && HoldsValid(s, s.owner, to)
    ensures Enabled(g, s, CopyToLog) && WithinQuota(g, s, CopyToLog)
    ensures var r := CopyBlock(s, from, to).(phase := AfterCopyLog(t, |s.lh|));
      Do(g, s, CopyToLog) == r && Pristine(g, r)
  {
  }

  /** Slot `t`, one of those the log has, is written. */
  lemma CopySlot(g: Geometry, states: seq<State>, steps: seq<Step>, s: State, base: map<nat, Buf>, t: nat)
    returns (ss: seq<State>, ts: seq<Step>)
    requires g.Valid() && Blk(g, g.nlog) <= g.nblocks && g.nlog < g.nbuf && t + 1 < g.nlog
    requires Built(g, states, steps) && s == states[|steps|] && Copied(g, s, base, t)
    ensures Built(g, ss, ts) && Copied(g, ss[|ts|], base, t + 1)
  {
    SlotFacts(g, s, base, t);
    var s2 := SlotHeld(s, base, g.logStart + 1 + t, Blk(g, t));
    ss, ts := HoldSlot(g, states, steps, s, base, t, g.logStart + 1 + t, Blk(g, t));
    ss, ts := CopyStep(g, ss, ts, s2, Blk(g, t), g.logStart + 1 + t, t);
    SlotAfter(g, s, base, t, s2, ss[|ts|]);
  }

  /** The committing process holds the log block `a` and the logged block `b`. */
  function SlotHeld(s: State, base: map<nat, Buf>, a: nat, b: nat): State
    requires b in base
  {
    s.(cache := Loading(s, base, s.owner, a).cache[b := base[b].(busy := Some(s.owner))])
  }

  lemma HoldSlot(g: Geometry, states: seq<State>, steps: seq<Step>, s: State, base: map<nat, Buf>, t: nat,
                 a: nat, b: nat) returns (ss: seq<State>, ts: seq<Step>)
    requires Built(g, states, steps) && s == states[|steps|] && MayRun(s, s.owner)
    requires a < g.nblocks && a !in s.cache && Room(g, s, a, Victim(g, t))
    requires base == if Victim(g, t).Some? then s.cache - {Victim(g, t).value} else s.cache
    requires a != b && b in base && base[b].busy.None?
    ensures Built(g, ss, ts) && ss[|ts|] == SlotHeld(s, base, a, b)
  {
    ss, ts := Bread(g, states, steps, s, s.owner, a, Victim(g, t), base);
    ss, ts := Grab(g, ss, ts, Loading(s, base, s.owner, a), s.owner, b);
  }

  lemma SlotFacts(g: Geometry, s: State, base: map<nat, Buf>, t: nat)
    requires g.Valid() && Blk(g, g.nlog) <= g.nblocks && g.nlog < g.nbuf && t + 1 < g.nlog && Copied(g, s, base, t)
    ensures var a, b := g.logStart + 1 + t, Blk(g, t);
      && MayRun(s, s.owner) && a < g.nblocks && a !in s.cache && Room(g, s, a, Victim(g, t))
      && base == (if Victim(g, t).Some? then s.cache - {Victim(g, t).value} else s.cache)
      && a !in base && b in base && base[b].busy.None? && base[b].valid && s.lh[t] == b
  {
    BaseFacts(g, s.lh, base, t);
    if t > 0 {
      BaseFacts(g, s.lh, base, t - 1);
      assert s.cache - {g.logStart + t} == base;
    }
  }

  lemma BaseFacts(g: Geometry, lh: seq<nat>, base: map<nat, Buf>, t: nat)
    requires t + 1 < g.nlog && Overrun(g, lh, base)
    ensures |base| == g.nlog && lh[t] == Blk(g, t) && g.logStart + 1 + t !in base
    ensures Blk(g, t) in base && base[Blk(g, t)].busy.None? && base[Blk(g, t)].valid
  {
  }

  lemma SlotAfter(g: Geometry, s: State, base: map<nat, Buf>, t: nat, s2: State, r: State)
    requires g.Valid() && t + 1 < g.nlog && Copied(g, s, base, t)
    requires var a, b := g.logStart + 1 + t, Blk(g, t);
      && a !in base && b in base && base[b].busy.None?
      && s2 == SlotHeld(s, base, a, b)
      && r == CopyBlock(s2, b, a).(phase := AfterCopyLog(t, |s.lh|))
    ensures Copied(g, r, base, t + 1)
  {
    var a, b := g.logStart + 1 + t, Blk(g, t);
    assert Free(base[b].(busy := Some(s.owner))) == base[b];
    assert r.cache == base[a := Buf(base[b].data, true, false, None, false)];
  }

  lemma {:induction false} CopySlots(g: Geometry, ops: nat, t: nat)
    returns (states: seq<State>, steps: seq<Step>, s: State, base: map<nat, Buf>)
    requires Racy(g, ops) && g.nlog < g.nbuf && t < g.nlog
    ensures Built(g, states, steps) && s == states[|steps|] && Copied(g, s, base, t)
  {
    if t == 0 {
      states, steps := CommitStarts(g, ops);
      s, base := states[|steps|], states[|steps|].cache;
    } else {
      var ss, ts, s0, b := CopySlots(g, ops, t - 1);
      states, steps := CopySlot(g, ss, ts, s0, b, t - 1);
      s, base := states[|steps|], b;
    }
  }

  /** A block behind the log was overwritten while the log on disk is empty and nothing is committed. */
  ghost predicate Clobbered(g: Geometry, s: State) {
    && Pristine(g, s) && s.phase.SealHead?
    && g.Home(Blk(g, 0)) && s.disk[Blk(g, 0)] == Ones(g)
  }

  /** The block past the last slot is the first one behind the log. */
  lemma CopyPastEnd(g: Geometry, states: seq<State>, steps: seq<Step>, s: State, base: map<nat, Buf>)
    returns (ss: seq<State>, ts: seq<Step>)
    requires g.Valid() && Blk(g, g.nlog) <= g.nblocks
    requires Built(g, states, steps) && s == states[|steps|] && Copied(g, s, base, g.nlog - 1)
    ensures Built(g, ss, ts) && Clobbered(g, ss[|ts|])
  {
    var o, a, b := s.owner, Blk(g, 0), Blk(g, g.nlog - 1);
    PastFacts(g, s, base);
    ss, ts := Grab(g, states, steps, s, o, a);
    var s1 := s.(cache := s.cache[a := s.cache[a].(busy := Some(o))]);
    ss, ts := Grab(g, ss, ts, s1, o, b);
    var s2 := s1.(cache := s1.cache[b := s1.cache[b].(busy := Some(o))]);
    ss, ts := CopyStep(g, ss, ts, s2, b, a, g.nlog - 1);
  }

  lemma PastFacts(g: Geometry, s: State, base: map<nat, Buf>)
    requires g.Valid() && Copied(g, s, base, g.nlog - 1)
    ensures var a, b := Blk(g, 0), Blk(g, g.nlog - 1);
      && a != b && MayRun(s, s.owner) && |s.lh| == g.nlog && s.lh[g.nlog - 1] == b
      && a in s.cache && s.cache[a].busy.None? && s.cache[a].valid
      && b in s.cache && s.cache[b].busy.None? && s.cache[b].valid && s.cache[b].data == Ones(g)
  {
    assert Blk(g, 0) in base && Blk(g, g.nlog - 1) in base;
  }

  /** The commit overwrites a home block with content nobody wrote to it, before any header write. */
  lemma OverrunBreaks(g: Geometry, ops: nat) returns (states: seq<State>, steps: seq<Step>)
    requires Racy(g, ops) && g.nlog < g.nbuf
    ensures QuotaRun(g, states, steps) && Shaped(g, states[0].img) && Clobbered(g, states[|steps|])
    ensures !Atomic(g, states[0].img, states[|steps|]) && !Unstolen(g, states[0].img, states[|steps|])
  {
    var ss, ts, s, base := CopySlots(g, ops, g.nlog - 1);
    states, steps := CopyPastEnd(g, ss, ts, s, base);
    BuiltIsRun(g, states, steps);
    NotHome(g, states[|steps|], states[0].img);
  }

  lemma NotHome(g: Geometry, s: State, img: seq<Block>)
    requires g.Valid() && Clobbered(g, s) && img == ZeroDisk(g)
    ensures !SameHome(g, s.disk, Written(img, s.done)) && !Atomic(g, img, s)
  {
    var b := Blk(g, 0);
    assert Written(img, s.done) == img;
    assert img[b][0] == 0 && Ones(g)[0] == 1;
    if Atomic(g, img, s) {
      ReplayAt(g, s.disk, b);
      assert false;
    }
  }

  // ----- exactly which sizes are safe -----

  ghost predicate AlwaysAtomic(g: Geometry) {
    forall states: seq<State>, steps: seq<Step>, i: nat ::
      QuotaRun(g, states, steps) && Shaped(g, states[0].img) && i < |states| ==> Atomic(g, states[0].img, states[i])
  }

  ghost predicate NeverSteals(g: Geometry) {
    forall states: seq<State>, steps: seq<Step>, i: nat ::
      (QuotaRun(g, states, steps) && Shaped(g, states[0].img) && i < |states|
       && !Sealed(states[i].phase) && !Booting(states[i].phase)) ==> Unstolen(g, states[0].img, states[i])
  }

  lemma SafeSizes(g: Geometry)
    requires AtomicSizes(g)
    ensures AlwaysAtomic(g) && NeverSteals(g)
  {
    forall states: seq<State>, steps: seq<Step>, i: nat
      | QuotaRun(g, states, steps) && Shaped(g, states[0].img) && i < |states|
      ensures Atomic(g, states[0].img, states[i])
      ensures !Sealed(states[i].phase) && !Booting(states[i].phase) ==> Unstolen(g, states[0].img, states[i])
    {
      QuotaRunRoomy(g, states, steps);
      CrashAtomicity(g, states, steps, i);
      if !Sealed(states[i].phase) && !Booting(states[i].phase) { NoSteal(g, states, steps, i); }
    }
  }

  lemma UnsafeSizes(g: Geometry, ops: nat)
    requires Sized(g, ops) && !AtomicSizes(g)
    ensures !AlwaysAtomic(g) && !NeverSteals(g)
  {
    MulMono(ops, 1, g.maxOp);
    var states, steps := OverrunBreaks(g, ops);
    assert !Atomic(g, states[0].img, states[|steps|]);
  }

  /**
   Runs within quota are crash atomic, and no home block is overwritten before its commit, if and
   only if the log has LOGSIZE slots, or the cache has no buffer to spare, or no two operations
   ever run together, or the log has no slot at all.
   */
  lemma AtomicIff(g: Geometry, ops: nat)
    requires Sized(g, ops)
    ensures AtomicSizes(g) <==> AlwaysAtomic(g)
    ensures AtomicSizes(g) <==> NeverSteals(g)
  {
    if AtomicSizes(g) { SafeSizes(g); } else { UnsafeSizes(g, ops); }
  }

  // ----- the shipped sizes -----

  /** With as many buffers as log blocks, every run is atomic, quota or not: NBUF = LOGSIZE = nlog. */
  lemma ShippedIsAtomic(states: seq<State>, steps: seq<Step>, i: nat)
    requires Run(SHIPPED, states, steps) && Shaped(SHIPPED, states[0].img) && i < |states|
    ensures Atomic(SHIPPED, states[0].img, states[i])
    ensures !Sealed(states[i].phase) && !Booting(states[i].phase) ==> Unstolen(SHIPPED, states[0].img, states[i])
  {
    SmallCacheRoomy(SHIPPED, states, steps);
    CrashAtomicity(SHIPPED, states, steps, i);
    if !Sealed(states[i].phase) && !Booting(states[i].phase) { NoSteal(SHIPPED, states, steps, i); }
  }

  /**
   The list can outgrow the shipped log all the same. The commit of it then finds every buffer
   dirty and none for its first log block: `bget` panics and nothing reaches the disk.
   */
  lemma ShippedOverrun() returns (states: seq<State>, steps: seq<Step>, slot: nat)
    ensures QuotaRun(SHIPPED, states, steps) && Shaped(SHIPPED, states[0].img)
    ensures states[|steps|].phase == CopyLog(0) && |states[|steps|].lh| == SHIPPED.nlog
    ensures slot == SHIPPED.logStart + 1 && slot !in states[|steps|].cache
    ensures forall v :: !Room(SHIPPED, states[|steps|], slot, v)
  {
    states, steps := CommitStarts(SHIPPED, 3);
    BuiltIsRun(SHIPPED, states, steps);
    SmallCacheRoomy(SHIPPED, states, steps);
    RunInv(SHIPPED, states, steps, |steps|);
    RunCache(SHIPPED, states, steps, |steps|);
    slot := SHIPPED.logStart + 1;
    NoBuffer(SHIPPED, states[|steps|], slot);
  }

  lemma NoBuffer(g: Geometry, s: State, b: nat)
    requires Inv(g, s) && |s.cache| <= g.nbuf <= |s.lh| && s.phase == CopyLog(0) && !g.Home(b)
    ensures b !in s.cache
    ensures forall v :: !Room(g, s, b, v)
  {
    Jammed(g, s, b);
    forall v: Option<nat> ensures !Room(g, s, b, v) {
      if v.Some? { Jammed(g, s, v.value); }
    }
  }

  /** One buffer more and the shipped kernel overwrites a home block. */
  lemma OneMoreBufferBreaks()
    ensures !AlwaysAtomic(SHIPPED.(nbuf := SHIPPED.nbuf + 1)) && !NeverSteals(SHIPPED.(nbuf := SHIPPED.nbuf + 1))
  {
    UnsafeSizes(SHIPPED.(nbuf := SHIPPED.nbuf + 1), 3);
  }
}
