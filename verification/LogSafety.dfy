/**
 Safety of the logging layer over every run: the invariant of the transition
 system of LogProtocol, kept by each of its steps.
 */
module LogSafety {
  import opened LogFormat
  import opened LogProtocol
  import opened Options

  // ----- the invariant -----

  /** The logged blocks whose new content is not yet at home. */
  function Pending(lh: seq<nat>, phase: Phase): seq<nat> {
    match phase
    case Running => lh
    case CopyLog(_) => lh
    case SealHead => lh
    case CopyHome(t) => if t <= |lh| then lh[t..] else []
    case _ => []
  }

  ghost predicate Shape(g: Geometry, disk: seq<Block>, img: seq<Block>) {
    g.Valid() && Shaped(g, disk) && Shaped(g, img)
  }

  /** What an unmodified valid buffer of each block must contain. */
  ghost predicate Expected(g: Geometry, s: State, b: nat, data: Block)
  {
    && b < |s.disk| && b < |s.img|
    && data == if g.Home(b) && !Booting(s.phase) then Latest(s)[b] else s.disk[b]
  }

  ghost predicate BufOk(g: Geometry, b: nat, buf: Buf, pending: seq<nat>, ops: map<Pid, Op>) {
    && b < g.nblocks
    && (buf.valid ==> |buf.data| == g.words)
    && (buf.dirty ==> buf.valid && b in pending)
    && (buf.touched ==> buf.valid && g.Home(b) && buf.busy.Some? && buf.busy.value in ops)
  }

  ghost predicate Bufs(g: Geometry, cache: map<nat, Buf>, pending: seq<nat>, ops: map<Pid, Op>) {
    forall b :: b in cache ==> BufOk(g, b, cache[b], pending, ops)
  }

  ghost predicate Fresh(g: Geometry, s: State) {
    forall b :: b in s.cache && s.cache[b].valid && !s.cache[b].touched ==> Expected(g, s, b, s.cache[b].data)
  }

  /** No-steal: a logged block stays in the cache, dirty, until it is installed. */
  ghost predicate Pins(cache: map<nat, Buf>, pending: seq<nat>) {
    forall b {:trigger b in pending} :: b in pending ==> b in cache && cache[b].dirty
  }

  ghost predicate CurOk(g: Geometry, lh: seq<nat>, cur: seq<Event>) {
    forall k :: 0 <= k < |cur| ==> cur[k].block in lh && |cur[k].data| == g.words
  }

  /** A list of distinct blocks, of any length. */
  ghost predicate Listed(g: Geometry, lh: seq<nat>) {
    Distinct(lh) && forall i :: 0 <= i < |lh| ==> g.Home(lh[i])
  }

  /**
   The list fits the log on disk; or it fills the buffer cache, and then the commit of it
   finds no buffer for its first log block.
   */
  ghost predicate Fits(g: Geometry, lh: seq<nat>, phase: Phase) {
    || |lh| < g.nlog
    || (2 <= g.nlog && g.nbuf <= g.nlog && (phase.Running? || phase == CopyLog(0)))
  }

  /** The first `n` log slots hold the new contents of the first `n` logged blocks. */
  ghost predicate SlotsHold(g: Geometry, disk: seq<Block>, lh: seq<nat>, img: seq<Block>, n: nat)
    requires Shape(g, disk, img) && Listed(g, lh)
  {
    n <= |lh| && n < g.nlog && forall i :: 0 <= i < n ==> disk[g.logStart + 1 + i] == img[lh[i]]
  }

  ghost predicate HomeHold(g: Geometry, disk: seq<Block>, lh: seq<nat>, img: seq<Block>, n: nat)
    requires Shape(g, disk, img) && Listed(g, lh)
  {
    n <= |lh| && forall i :: 0 <= i < n ==> disk[lh[i]] == img[lh[i]]
  }

  ghost predicate Unsealed(g: Geometry, disk: seq<Block>, img: seq<Block>)
    requires Shape(g, disk, img)
  {
    Entries(disk[g.logStart]) == [] && SameHome(g, disk, img)
  }

  ghost predicate Installing(g: Geometry, disk: seq<Block>, lh: seq<nat>, img: seq<Block>, n: nat)
    requires Shape(g, disk, img) && Listed(g, lh)
  {
    && |lh| < g.nlog
    && Entries(disk[g.logStart]) == lh
    && Recoverable(g, disk, img)
    && HomeHold(g, disk, lh, img, n)
  }

  ghost predicate DiskOk(
    g: Geometry, disk: seq<Block>, lh: seq<nat>, img: seq<Block>, latest: seq<Block>, phase: Phase)
    requires Shape(g, disk, img) && Shaped(g, latest) && Listed(g, lh)
  {
    match phase
    case Running => Unsealed(g, disk, img)
    case CopyLog(t) => Unsealed(g, disk, img) && SlotsHold(g, disk, lh, latest, t) && (t < |lh| || lh == [])
    case SealHead => Unsealed(g, disk, img) && SlotsHold(g, disk, lh, latest, |lh|) && lh != []
    case CopyHome(t) => Installing(g, disk, lh, img, t) && t < |lh|
    case ClearHead => Installing(g, disk, lh, img, |lh|)
    case Closing => Unsealed(g, disk, img) && lh == []
    case BootRead => Recoverable(g, disk, img) && lh == []
    case BootCopy(t) => Installing(g, disk, lh, img, t) && t < |lh|
    case BootClear => Installing(g, disk, lh, img, |lh|)
  }

  /** The list, the operations and the phase; holds in every run, whatever the sizes. */
  ghost predicate OpsOk(g: Geometry, s: State) {
    && (!s.phase.Running? ==> s.ops == map[])
    && (s.phase.Running? && s.ops == map[] ==> s.lh == [])
    && (s.phase.Closing? ==> s.lh == [])
    && (forall p :: p in s.ops && s.ops[p].passed.Some? ==> 2 <= g.nlog)
    && (Sealed(s.phase) || Booting(s.phase) ==> s.cur == [])
  }

  ghost predicate Inv(g: Geometry, s: State) {
    match s
    case State(disk, cache, lh, ops, phase, _, img, _, cur, _, _) =>
      && Shape(g, disk, img)
      && Shaped(g, Latest(s))
      && Listed(g, lh) && Fits(g, lh, phase)
      && Bufs(g, cache, Pending(lh, phase), ops)
      && Fresh(g, s)
      && Pins(cache, Pending(lh, phase))
      && CurOk(g, lh, cur)
      && DiskOk(g, disk, lh, img, Latest(s), phase)
      && OpsOk(g, s)
  }

  // ----- facts about Written -----

  lemma {:induction false} WrittenElsewhere(img: seq<Block>, evs: seq<Event>, b: nat)
    requires b < |img|
    requires forall k :: 0 <= k < |evs| ==> evs[k].block != b
    ensures Written(img, evs)[b] == img[b]
    decreases |evs|
  {
    if evs != [] {
      WrittenElsewhere(img, evs[..|evs| - 1], b);
    }
  }

  lemma {:induction false} WrittenConcat(img: seq<Block>, a: seq<Event>, b: seq<Event>)
    ensures Written(img, a + b) == Written(Written(img, a), b)
    decreases |b|
  {
    if b == [] {
      assert a + b == a;
    } else {
      assert (a + b)[..|a + b| - 1] == a + b[..|b| - 1];
      WrittenConcat(img, a, b[..|b| - 1]);
    }
  }

  /** Blocks that were not logged read the same as after the last commit. */
  lemma LatestUnlogged(g: Geometry, s: State, b: nat)
    requires |s.img| == g.nblocks && CurOk(g, s.lh, s.cur)
    requires b < g.nblocks && b !in s.lh
    ensures Latest(s)[b] == s.img[b]
  {
    WrittenElsewhere(s.img, s.cur, b);
  }

  // ----- each step keeps the invariant -----

  /** The steps that change the list, the operations or the phase while operations run. */
  lemma CallOpsKept(g: Geometry, s: State, step: Step, r: State)
    requires OpsOk(g, s) && Enabled(g, s, step) && r == Do(g, s, step)
    requires step.Test? || step.LogWrite? || step.BeginOp? || step.EndOp?
    ensures OpsOk(g, r)
  {
    if !step.EndOp? { assert step.p in r.ops; }
  }

  lemma OtherOpsKept(g: Geometry, s: State, step: Step, r: State)
    requires OpsOk(g, s) && Enabled(g, s, step) && r == Do(g, s, step)
    requires !(step.Test? || step.LogWrite? || step.BeginOp? || step.EndOp?)
    ensures OpsOk(g, r)
  {
    if step.Crash? { assert r.ops == map[]; } else { assert r.ops == s.ops; }
  }

  lemma OpsKept(g: Geometry, s: State, step: Step)
    requires OpsOk(g, s) && Enabled(g, s, step)
    ensures OpsOk(g, Do(g, s, step))
  {
    if step.Test? || step.LogWrite? || step.BeginOp? || step.EndOp? {
      CallOpsKept(g, s, step, Do(g, s, step));
    } else {
      OtherOpsKept(g, s, step, Do(g, s, step));
    }
  }

  lemma HitKeeps(g: Geometry, s: State, p: Pid, b: nat)
    requires Inv(g, s) && Enabled(g, s, Hit(p, b))
    ensures Inv(g, Do(g, s, Hit(p, b)))
  {
    assert BufOk(g, b, s.cache[b], Pending(s.lh, s.phase), s.ops);
  }

  lemma MissKeeps(g: Geometry, s: State, p: Pid, b: nat, v: Option<nat>)
    requires Inv(g, s) && Enabled(g, s, Miss(p, b, v))
    ensures Inv(g, Do(g, s, Miss(p, b, v)))
  {
    var r := Do(g, s, Miss(p, b, v));
    assert Latest(r) == Latest(s);
    assert forall c :: c in r.cache && c != b ==> c in s.cache && r.cache[c] == s.cache[c];
  }

  lemma LoadKeeps(g: Geometry, s: State, p: Pid, b: nat)
    requires Inv(g, s) && Enabled(g, s, Load(p, b))
    ensures Inv(g, Do(g, s, Load(p, b)))
  {
    assert BufOk(g, b, s.cache[b], Pending(s.lh, s.phase), s.ops);
    var r := Do(g, s, Load(p, b));
    assert Expected(g, r, b, r.cache[b].data) by {
      if g.Home(b) && !Booting(s.phase) {
        assert !s.cache[b].dirty;
        LoadedLatest(g, s, b);
      }
    }
  }

  /** The home block of anything not pending is up to date. */
  lemma LoadedLatest(g: Geometry, s: State, b: nat)
    requires Inv(g, s) && g.Home(b) && !Booting(s.phase)
    requires b !in Pending(s.lh, s.phase)
    ensures s.disk[b] == Latest(s)[b]
  {
    if b !in s.lh {
      LatestUnlogged(g, s, b);
    } else {
      var i: nat :| i < |s.lh| && s.lh[i] == b;
      if s.phase.CopyHome? { InTail(s.lh, s.phase.tail, i); }
    }
  }

  lemma InTail(l: seq<nat>, t: nat, i: nat)
    ensures t <= i < |l| ==> l[i] in l[t..]
  {
    if t <= i < |l| { assert l[t..][i - t] == l[i]; }
  }

  lemma ModifyKeeps(g: Geometry, s: State, p: Pid, b: nat, data: Block)
    requires Inv(g, s) && Enabled(g, s, Modify(p, b, data))
    ensures Inv(g, Do(g, s, Modify(p, b, data)))
  {
    assert BufOk(g, b, s.cache[b], Pending(s.lh, s.phase), s.ops);
  }

  lemma ReleaseKeeps(g: Geometry, s: State, p: Pid, b: nat)
    requires Inv(g, s) && Enabled(g, s, Release(p, b))
    ensures Inv(g, Do(g, s, Release(p, b)))
  {
    assert BufOk(g, b, s.cache[b], Pending(s.lh, s.phase), s.ops);
  }

  lemma LoggedOk(g: Geometry, lh: seq<nat>, b: nat)
    requires Listed(g, lh) && g.Home(b)
    ensures Listed(g, Logged(lh, b)) && b in Logged(lh, b)
    ensures |Logged(lh, b)| == if b in lh then |lh| else |lh| + 1
    ensures forall c :: c in lh ==> c in Logged(lh, b)
    ensures forall c :: c in Logged(lh, b) ==> c in lh || c == b
  {
  }

  lemma LogWriteLatest(g: Geometry, s: State, p: Pid, b: nat)
    requires Inv(g, s) && Enabled(g, s, LogWrite(p, b))
    ensures Latest(Do(g, s, LogWrite(p, b))) == Latest(s)[b := s.cache[b].data]
  {
    var r := Do(g, s, LogWrite(p, b));
    assert r.cur[..|r.cur| - 1] == s.cur;
  }

  lemma LogWriteFresh(g: Geometry, s: State, p: Pid, b: nat)
    requires Inv(g, s) && Enabled(g, s, LogWrite(p, b))
    ensures Fresh(g, Do(g, s, LogWrite(p, b)))
  {
    LogWriteLatest(g, s, p, b);
    var r := Do(g, s, LogWrite(p, b));
    forall c | c in r.cache && r.cache[c].valid && !r.cache[c].touched ensures Expected(g, r, c, r.cache[c].data) {
      if c != b { assert Expected(g, s, c, s.cache[c].data); }
    }
  }

  lemma LogWriteBufs(g: Geometry, s: State, p: Pid, b: nat, r: State)
    requires Inv(g, s) && Enabled(g, s, LogWrite(p, b)) && r == Do(g, s, LogWrite(p, b)) && s.phase.Running?
    ensures Bufs(g, r.cache, r.lh, r.ops)
  {
    LoggedOk(g, s.lh, b);
    forall c | c in r.cache ensures BufOk(g, c, r.cache[c], r.lh, r.ops) {
      assert BufOk(g, c, s.cache[c], s.lh, s.ops);
    }
  }

  /** The list may have outgrown the log between test and append; this is when it has not. */
  ghost predicate Roomy(g: Geometry, s: State, step: Step) {
    step.LogWrite? && step.b !in s.lh ==> |s.lh| < g.logSize && (|s.lh| + 1 < g.nlog || g.nbuf <= g.nlog)
  }

  lemma LogWriteList(g: Geometry, s: State, p: Pid, b: nat, r: State)
    requires Inv(g, s) && Enabled(g, s, LogWrite(p, b)) && Roomy(g, s, LogWrite(p, b))
    requires r == Do(g, s, LogWrite(p, b))
    ensures Listed(g, r.lh) && Fits(g, r.lh, r.phase) && CurOk(g, r.lh, r.cur) && Pins(r.cache, r.lh)
  {
    LoggedOk(g, s.lh, b);
    assert BufOk(g, b, s.cache[b], Pending(s.lh, s.phase), s.ops);
  }

  lemma LogWriteKeeps(g: Geometry, s: State, p: Pid, b: nat)
    requires Inv(g, s) && Enabled(g, s, LogWrite(p, b)) && Roomy(g, s, LogWrite(p, b))
    ensures Inv(g, Do(g, s, LogWrite(p, b)))
  {
    var r := Do(g, s, LogWrite(p, b));
    LogWriteShape(g, s, p, b, r);
    LogWriteFresh(g, s, p, b);
    LogWriteBufs(g, s, p, b, r);
    LogWriteList(g, s, p, b, r);
    OpsKept(g, s, LogWrite(p, b));
  }

  lemma LogWriteShape(g: Geometry, s: State, p: Pid, b: nat, r: State)
    requires Inv(g, s) && Enabled(g, s, LogWrite(p, b)) && r == Do(g, s, LogWrite(p, b))
    ensures Shaped(g, Latest(r)) && r.phase.Running? && r.disk == s.disk && r.img == s.img
  {
    assert BufOk(g, b, s.cache[b], Pending(s.lh, s.phase), s.ops);
    LogWriteLatest(g, s, p, b);
  }

  lemma TestKeeps(g: Geometry, s: State, p: Pid, b: nat)
    requires Inv(g, s) && Enabled(g, s, Test(p, b))
    ensures Inv(g, Do(g, s, Test(p, b)))
  {
    var r := Do(g, s, Test(p, b));
    assert Latest(r) == Latest(s);
    forall c | c in r.cache ensures BufOk(g, c, r.cache[c], Pending(r.lh, r.phase), r.ops) {
      assert BufOk(g, c, s.cache[c], Pending(s.lh, s.phase), s.ops);
    }
    OpsKept(g, s, Test(p, b));
  }

  lemma BeginOpKeeps(g: Geometry, s: State, p: Pid)
    requires Inv(g, s) && Enabled(g, s, BeginOp(p))
    ensures Inv(g, Do(g, s, BeginOp(p)))
  {
    var r := Do(g, s, BeginOp(p));
    assert Latest(r) == Latest(s);
    assert p in r.ops;
    forall b | b in r.cache ensures BufOk(g, b, r.cache[b], Pending(r.lh, r.phase), r.ops) {
      assert BufOk(g, b, s.cache[b], Pending(s.lh, s.phase), s.ops);
    }
  }

  lemma EndOpKeeps(g: Geometry, s: State, p: Pid)
    requires Inv(g, s) && Enabled(g, s, EndOp(p))
    ensures Inv(g, Do(g, s, EndOp(p)))
  {
    var r := Do(g, s, EndOp(p));
    assert Latest(r) == Latest(s);
    forall b | b in r.cache ensures BufOk(g, b, r.cache[b], Pending(r.lh, r.phase), r.ops) {
      assert BufOk(g, b, s.cache[b], Pending(s.lh, s.phase), s.ops);
      if s.cache[b].busy == Some(p) { assert Holds(s, p, b); }
    }
  }

  lemma CloseKeeps(g: Geometry, s: State)
    requires Inv(g, s) && Enabled(g, s, Close)
    ensures Inv(g, Do(g, s, Close))
  {
    assert Latest(Do(g, s, Close)) == Latest(s);
  }

  /** Copying a block within the cache and to disk keeps the buffers well formed. */
  lemma CopyBufs(g: Geometry, s: State, from: nat, to: nat, pending: seq<nat>, pending': seq<nat>)
    requires Bufs(g, s.cache, pending, s.ops)
    requires from in s.cache && to in s.cache && s.cache[from].valid && !s.cache[from].touched
    requires forall b :: b in pending && b != to ==> b in pending'
    ensures Bufs(g, CopyBlock(s, from, to).cache, pending', s.ops)
  {
    var r := CopyBlock(s, from, to);
    assert BufOk(g, from, s.cache[from], pending, s.ops);
    assert BufOk(g, to, s.cache[to], pending, s.ops);
    forall b | b in r.cache ensures BufOk(g, b, r.cache[b], pending', s.ops) {
      assert BufOk(g, b, s.cache[b], pending, s.ops);
    }
  }

  lemma Untouched(g: Geometry, s: State, b: nat)
    requires Bufs(g, s.cache, Pending(s.lh, s.phase), s.ops) && s.ops == map[]
    ensures b in s.cache ==> !s.cache[b].touched && (s.cache[b].valid ==> |s.cache[b].data| == g.words)
  {
    if b in s.cache { assert BufOk(g, b, s.cache[b], Pending(s.lh, s.phase), s.ops); }
  }

  lemma CopyToLogDisk(g: Geometry, disk: seq<Block>, lh: seq<nat>, img: seq<Block>, latest: seq<Block>, t: nat)
    requires Shape(g, disk, img) && Shaped(g, latest) && Loggable(g, lh) && t < |lh|
    requires DiskOk(g, disk, lh, img, latest, CopyLog(t))
    ensures var d := disk[g.logStart + 1 + t := latest[lh[t]]];
      Shape(g, d, img) && DiskOk(g, d, lh, img, latest, AfterCopyLog(t, |lh|))
  {
  }

  /** A block written through the cache is fresh, and so is everything that was. */
  lemma CopyFresh(g: Geometry, s: State, from: nat, to: nat, r: State)
    requires Fresh(g, s) && from in s.cache && to in s.cache
    requires r.cache == CopyBlock(s, from, to).cache && r.disk == CopyBlock(s, from, to).disk
    requires |r.img| == |s.img| && Latest(r) == Latest(s) && Booting(r.phase) == Booting(s.phase)
    requires to < |s.disk| && to < |s.img|
    requires g.Home(to) && !Booting(s.phase) ==> s.cache[from].data == Latest(s)[to]
    ensures Fresh(g, r)
  {
    forall b | b in r.cache && r.cache[b].valid && !r.cache[b].touched ensures Expected(g, r, b, r.cache[b].data) {
      if b != to { assert Expected(g, s, b, s.cache[b].data); }
    }
  }

  lemma CopyToLogParts(g: Geometry, s: State, t: nat, r: State)
    requires Shape(g, s.disk, s.img) && Shaped(g, Latest(s)) && Loggable(g, s.lh) && t < |s.lh| && s.ops == map[]
    requires s.phase == CopyLog(t) && DiskOk(g, s.disk, s.lh, s.img, Latest(s), s.phase)
    requires Bufs(g, s.cache, s.lh, s.ops) && Fresh(g, s) && Pins(s.cache, s.lh)
    requires HoldsValid(s, s.owner, g.logStart + 1 + t) && HoldsValid(s, s.owner, s.lh[t])
    requires r == CopyBlock(s, s.lh[t], g.logStart + 1 + t).(phase := AfterCopyLog(t, |s.lh|))
    ensures Bufs(g, r.cache, r.lh, r.ops) && Fresh(g, r) && Pins(r.cache, r.lh)
    ensures r.disk == s.disk[g.logStart + 1 + t := Latest(s)[s.lh[t]]]
    ensures Shape(g, r.disk, r.img) && DiskOk(g, r.disk, r.lh, r.img, Latest(s), r.phase)
  {
    CopyToLogDisk(g, s.disk, s.lh, s.img, Latest(s), t);
    var from, to := s.lh[t], g.logStart + 1 + t;
    Untouched(g, s, from);
    CopyBufs(g, s, from, to, s.lh, s.lh);
    assert Expected(g, s, from, s.cache[from].data);
    CopyFresh(g, s, from, to, r);
  }

  /** A list of as many blocks as there are buffers leaves no buffer for anything else. */
  lemma Jammed(g: Geometry, s: State, b: nat)
    requires Listed(g, s.lh) && Pins(s.cache, s.lh) && |s.cache| <= g.nbuf <= |s.lh|
    ensures b in s.cache ==> b in s.lh && s.cache[b].dirty
    ensures |s.lh| == |s.cache| == g.nbuf
  {
    var l := set c | c in s.lh;
    ListSize(s.lh, l);
    assert l <= s.cache.Keys;
    SubsetFull(l, s.cache.Keys);
  }

  lemma {:induction false} ListSize(l: seq<nat>, r: set<nat>)
    requires Distinct(l) && r == set b | b in l
    ensures |r| == |l|
  {
    if l == [] {
      assert r == {};
    } else {
      var n := |l| - 1;
      var r' := set b | b in l[..n];
      ListSize(l[..n], r');
      assert l == l[..n] + [l[n]];
      assert r == r' + {l[n]};
    }
  }

  lemma SubsetFull(a: set<nat>, b: set<nat>)
    requires a <= b
    ensures |a| <= |b| && (|a| == |b| ==> a == b)
  {
    assert b == a + (b - a);
    assert |b| == |a| + |b - a|;
  }

  /** A commit that copies its first block has a list that fits. */
  lemma CopyFits(g: Geometry, s: State)
    requires Inv(g, s) && Enabled(g, s, CopyToLog) && |s.cache| <= g.nbuf
    ensures |s.lh| < g.nlog
  {
    if |s.lh| >= g.nlog {
      Jammed(g, s, g.logStart + 1);
      assert false;
    }
  }

  lemma CopyToLogKeeps(g: Geometry, s: State)
    requires Inv(g, s) && Enabled(g, s, CopyToLog) && |s.cache| <= g.nbuf
    ensures Inv(g, Do(g, s, CopyToLog))
  {
    var r := Do(g, s, CopyToLog);
    assert s.phase == CopyLog(s.phase.tail) && s.ops == map[];
    CopyFits(g, s);
    CopyToLogParts(g, s, s.phase.tail, r);
    assert Latest(r) == Latest(s) && Pending(r.lh, r.phase) == r.lh;
  }

  lemma HeadBuf(g: Geometry, s: State)
    requires Inv(g, s) && s.ops == map[] && g.logStart in s.cache && s.cache[g.logStart].valid
    ensures s.cache[g.logStart].data == s.disk[g.logStart] && |s.cache[g.logStart].data| == g.words
  {
    Untouched(g, s, g.logStart);
    assert Expected(g, s, g.logStart, s.cache[g.logStart].data);
  }

  /** Writing the header changes no home block and leaves the buffers in step with the disk. */
  lemma WriteHeadKeeps(g: Geometry, s: State, l: seq<nat>, pending: seq<nat>)
    requires Inv(g, s) && s.ops == map[] && HoldsHead(g, s) && |l| <= |s.lh|
    requires forall b :: b in Pending(s.lh, s.phase) ==> b in pending
    ensures var r := WriteHead(g, s, l);
      && Shaped(g, r.disk)
      && Bufs(g, r.cache, pending, r.ops)
      && r.disk == s.disk[g.logStart := WithEntries(s.disk[g.logStart], l)]
      && Entries(r.disk[g.logStart]) == l
      && r.cache[g.logStart].data == r.disk[g.logStart]
  {
    HeadBuf(g, s);
    HeadRoundTrip(s.disk[g.logStart], l);
    var r := WriteHead(g, s, l);
    forall b | b in r.cache ensures BufOk(g, b, r.cache[b], pending, r.ops) {
      assert BufOk(g, b, s.cache[b], Pending(s.lh, s.phase), s.ops);
    }
  }

  /** The header written: from now on recovery gives the new image. */
  lemma SealDisk(g: Geometry, disk: seq<Block>, lh: seq<nat>, img: seq<Block>, latest: seq<Block>)
    requires Shape(g, disk, img) && Shaped(g, latest) && Loggable(g, lh)
    requires |lh| < g.words && Unsealed(g, disk, img) && SlotsHold(g, disk, lh, latest, |lh|)
    requires forall b: nat {:trigger g.Home(b)} :: g.Home(b) && b !in lh ==> latest[b] == img[b]
    ensures var d := disk[g.logStart := WithEntries(disk[g.logStart], lh)];
      Shape(g, d, latest) && Installing(g, d, lh, latest, 0)
  {
    HeadRoundTrip(disk[g.logStart], lh);
    var d := disk[g.logStart := WithEntries(disk[g.logStart], lh)];
    assert forall b: nat :: g.Home(b) ==> d[b] == disk[b];
  }

  lemma Unlogged(g: Geometry, s: State)
    requires Inv(g, s)
    ensures forall b: nat {:trigger g.Home(b)} :: g.Home(b) && b !in s.lh ==> Latest(s)[b] == s.img[b]
  {
    forall b: nat | g.Home(b) && b !in s.lh ensures Latest(s)[b] == s.img[b] {
      LatestUnlogged(g, s, b);
    }
  }

  lemma HeadFresh(g: Geometry, s: State, l: seq<nat>, r: State)
    requires Fresh(g, s) && g.logStart in s.cache && |l| < |s.cache[g.logStart].data|
    requires r.cache == WriteHead(g, s, l).cache && r.disk == WriteHead(g, s, l).disk
    requires |r.img| == |s.img| && Latest(r) == Latest(s) && Booting(r.phase) == Booting(s.phase)
    requires g.logStart < |s.disk| && g.logStart < |s.img| && !g.Home(g.logStart)
    ensures Fresh(g, r)
  {
    forall b | b in r.cache && r.cache[b].valid && !r.cache[b].touched ensures Expected(g, r, b, r.cache[b].data) {
      if b != g.logStart { assert Expected(g, s, b, s.cache[b].data); }
    }
  }

  lemma SealKeeps(g: Geometry, s: State)
    requires Inv(g, s) && Enabled(g, s, Seal)
    ensures Inv(g, Do(g, s, Seal))
  {
    var r := Do(g, s, Seal);
    SealCache(g, s, r);
    Unlogged(g, s);
    SealDisk(g, s.disk, s.lh, s.img, Latest(s));
  }

  lemma SealCache(g: Geometry, s: State, r: State)
    requires Inv(g, s) && Enabled(g, s, Seal) && r == Do(g, s, Seal)
    ensures r.disk == s.disk[g.logStart := WithEntries(s.disk[g.logStart], s.lh)] && Pending(r.lh, r.phase) == s.lh
    ensures Bufs(g, r.cache, s.lh, r.ops) && Fresh(g, r) && Pins(r.cache, s.lh)
  {
    var h := WriteHead(g, s, s.lh);
    WriteHeadKeeps(g, s, s.lh, s.lh);
    assert r.cache == h.cache && r.disk == h.disk && r.lh == s.lh && r.phase == CopyHome(0);
    assert r.lh[0..] == r.lh;
    SealFresh(g, s, h, r);
  }

  lemma SealFresh(g: Geometry, s: State, h: State, r: State)
    requires Inv(g, s) && s.phase.SealHead? && HoldsHead(g, s) && h == WriteHead(g, s, s.lh)
    requires r.cache == h.cache && r.disk == h.disk && r.img == Latest(s) && r.cur == [] && r.phase == CopyHome(0)
    ensures Fresh(g, r)
  {
    assert Latest(r) == Latest(s);
    HeadFresh(g, s, s.lh, r);
  }

  /** One block installed: the disk stays recoverable and one more home block is in place. */
  lemma InstallDisk(g: Geometry, disk: seq<Block>, lh: seq<nat>, img: seq<Block>, t: nat)
    requires Shape(g, disk, img) && Loggable(g, lh) && t < |lh|
    requires Installing(g, disk, lh, img, t)
    ensures var d := disk[lh[t] := disk[g.logStart + 1 + t]];
      Shape(g, d, img) && Installing(g, d, lh, img, t + 1)
  {
    assert disk[g.logStart + 1 + t] == img[lh[t]];
    var d := disk[lh[t] := disk[g.logStart + 1 + t]];
    assert d[g.logStart] == disk[g.logStart];
    assert forall b :: g.logStart < b < g.logStart + g.nlog ==> d[b] == disk[b];
  }

  /** The buffers the installing process holds: the log block matches the slot on disk. */
  lemma SlotBuf(g: Geometry, s: State, b: nat)
    requires Bufs(g, s.cache, Pending(s.lh, s.phase), s.ops) && Fresh(g, s) && s.ops == map[]
    requires b in s.cache && s.cache[b].valid && !g.Home(b)
    ensures !s.cache[b].touched && b < |s.disk| && b < |s.img| && s.cache[b].data == s.disk[b]
  {
    assert BufOk(g, b, s.cache[b], Pending(s.lh, s.phase), s.ops);
    assert Expected(g, s, b, s.cache[b].data);
  }

  /** install_trans on one block, in commit and in recovery alike: the cache afterwards. */
  lemma InstallBufs(g: Geometry, s: State, t: nat, r: State)
    requires Shape(g, s.disk, s.img) && Loggable(g, s.lh) && t < |s.lh| && s.ops == map[] && s.cur == []
    requires SlotsHold(g, s.disk, s.lh, s.img, |s.lh|)
    requires Bufs(g, s.cache, Pending(s.lh, s.phase), s.ops) && Fresh(g, s)
    requires HoldsValid(s, s.owner, g.logStart + 1 + t) && HoldsValid(s, s.owner, s.lh[t])
    requires r == CopyBlock(s, g.logStart + 1 + t, s.lh[t]).(phase := r.phase)
    requires Booting(r.phase) == Booting(s.phase)
    requires forall b :: b in Pending(s.lh, s.phase) && b != s.lh[t] ==> b in Pending(s.lh, r.phase)
    ensures r.disk == s.disk[s.lh[t] := s.disk[g.logStart + 1 + t]]
    ensures Bufs(g, r.cache, Pending(r.lh, r.phase), r.ops) && Fresh(g, r)
  {
    var from, to := g.logStart + 1 + t, s.lh[t];
    SlotBuf(g, s, from);
    CopyBufs(g, s, from, to, Pending(s.lh, s.phase), Pending(r.lh, r.phase));
    assert s.disk[from] == s.img[to];
    CopyFresh(g, s, from, to, r);
  }

  lemma InstallingSlots(g: Geometry, disk: seq<Block>, lh: seq<nat>, img: seq<Block>, n: nat)
    requires Shape(g, disk, img) && Loggable(g, lh) && Installing(g, disk, lh, img, n)
    ensures SlotsHold(g, disk, lh, img, |lh|)
  {
  }

  lemma CopyToHomeKeeps(g: Geometry, s: State)
    requires Inv(g, s) && Enabled(g, s, CopyToHome)
    ensures Inv(g, Do(g, s, CopyToHome))
  {
    var t := s.phase.tail;
    var r := Do(g, s, CopyToHome);
    InstallParts(g, s, t, r);
  }

  lemma InstallParts(g: Geometry, s: State, t: nat, r: State)
    requires Shape(g, s.disk, s.img) && Loggable(g, s.lh) && t < |s.lh| && s.ops == map[] && s.cur == []
    requires Installing(g, s.disk, s.lh, s.img, t)
    requires Bufs(g, s.cache, Pending(s.lh, s.phase), s.ops) && Fresh(g, s) && Pins(s.cache, Pending(s.lh, s.phase))
    requires HoldsValid(s, s.owner, g.logStart + 1 + t) && HoldsValid(s, s.owner, s.lh[t])
    requires r == CopyBlock(s, g.logStart + 1 + t, s.lh[t]).(phase := r.phase)
    requires NextInstall(s.phase, r.phase, t, |s.lh|)
    ensures Bufs(g, r.cache, Pending(r.lh, r.phase), r.ops) && Fresh(g, r) && Pins(r.cache, Pending(r.lh, r.phase))
    ensures Shape(g, r.disk, r.img) && DiskOk(g, r.disk, r.lh, r.img, r.img, r.phase)
  {
    PendingNext(s.lh, t);
    InstallingSlots(g, s.disk, s.lh, s.img, t);
    InstallBufs(g, s, t, r);
    InstallPins(s, g.logStart + 1 + t, t, r);
    InstallPhase(g, s.disk, s.lh, s.img, t, s.phase, r.phase);
  }

  /** The phase before and after one block is installed, in commit or in recovery. */
  ghost predicate NextInstall(ph: Phase, ph': Phase, t: nat, n: nat) {
    (ph == CopyHome(t) && ph' == AfterCopyHome(t, n)) || (ph == BootCopy(t) && ph' == BootFrom(t + 1, n))
  }

  lemma InstallPins(s: State, from: nat, t: nat, r: State)
    requires t < |s.lh| && Distinct(s.lh) && from in s.cache && s.lh[t] in s.cache
      && NextInstall(s.phase, r.phase, t, |s.lh|)
    requires r == CopyBlock(s, from, s.lh[t]).(phase := r.phase) && Pins(s.cache, Pending(s.lh, s.phase))
    ensures Pins(r.cache, Pending(r.lh, r.phase))
  {
    PendingNext(s.lh, t);
  }

  lemma InstallPhase(g: Geometry, disk: seq<Block>, lh: seq<nat>, img: seq<Block>, t: nat, ph: Phase, ph': Phase)
    requires Shape(g, disk, img) && Loggable(g, lh) && t < |lh| && Installing(g, disk, lh, img, t)
      && NextInstall(ph, ph', t, |lh|)
    ensures var d := disk[lh[t] := disk[g.logStart + 1 + t]];
      Shape(g, d, img) && DiskOk(g, d, lh, img, img, ph')
  {
    InstallDisk(g, disk, lh, img, t);
  }

  lemma PendingNext(lh: seq<nat>, t: nat)
    requires t < |lh| && Distinct(lh)
    ensures forall b :: b in Pending(lh, AfterCopyHome(t, |lh|)) <==> b in Pending(lh, CopyHome(t)) && b != lh[t]
  {
    assert lh[t..] == [lh[t]] + lh[t + 1..];
    if t + 1 == |lh| { assert lh[t + 1..] == []; }
  }

  lemma ClearDisk(g: Geometry, disk: seq<Block>, lh: seq<nat>, img: seq<Block>)
    requires Shape(g, disk, img) && Loggable(g, lh) && Installing(g, disk, lh, img, |lh|)
    ensures var d := disk[g.logStart := WithEntries(disk[g.logStart], [])];
      Shape(g, d, img) && Unsealed(g, d, img)
  {
    HeadRoundTrip(disk[g.logStart], []);
    var d := disk[g.logStart := WithEntries(disk[g.logStart], [])];
    forall b: nat | g.Home(b) ensures d[b] == img[b] {
      if b in lh {
        var i :| 0 <= i < |lh| && lh[i] == b;
      }
    }
  }

  lemma ClearKeeps(g: Geometry, s: State)
    requires Inv(g, s) && Enabled(g, s, Clear)
    ensures Inv(g, Do(g, s, Clear))
  {
    var r := Do(g, s, Clear);
    WriteHeadKeeps(g, s, [], []);
    ClearDisk(g, s.disk, s.lh, s.img);
    HeadFresh(g, s, [], r);
  }

  lemma CrashKeeps(g: Geometry, s: State, p: Pid)
    requires Inv(g, s)
    ensures Inv(g, Do(g, s, Crash(p)))
    ensures Recoverable(g, s.disk, s.img)
  {
  }

  lemma BootHeadKeeps(g: Geometry, s: State)
    requires Inv(g, s) && Enabled(g, s, BootHead)
    ensures Inv(g, Do(g, s, BootHead))
  {
    HeadBuf(g, s);
    assert BufOk(g, g.logStart, s.cache[g.logStart], [], s.ops);
  }

  lemma BootToHomeKeeps(g: Geometry, s: State)
    requires Inv(g, s) && Enabled(g, s, BootToHome)
    ensures Inv(g, Do(g, s, BootToHome))
  {
    var t := s.phase.tail;
    var r := Do(g, s, BootToHome);
    InstallParts(g, s, t, r);
  }

  lemma BootEraseKeeps(g: Geometry, s: State)
    requires Inv(g, s) && Enabled(g, s, BootErase)
    ensures Inv(g, Do(g, s, BootErase))
  {
    var r := Do(g, s, BootErase);
    WriteHeadKeeps(g, s, [], []);
    ClearDisk(g, s.disk, s.lh, s.img);
    HeadBuf(g, s);
    forall b | b in r.cache && r.cache[b].valid && !r.cache[b].touched ensures Expected(g, r, b, r.cache[b].data) {
      if b != g.logStart { assert Expected(g, s, b, s.cache[b].data); }
    }
  }

  lemma ProcessStepKeeps(g: Geometry, s: State, step: Step)
    requires Inv(g, s) && Enabled(g, s, step) && Roomy(g, s, step)
    requires step.Hit? || step.Miss? || step.Load? || step.Modify? || step.Test? || step.LogWrite? || step.Release?
      || step.BeginOp? || step.EndOp?
    ensures Inv(g, Do(g, s, step))
  {
    match step
    case Hit(p, b) => HitKeeps(g, s, p, b);
    case Miss(p, b, v) => MissKeeps(g, s, p, b, v);
    case Load(p, b) => LoadKeeps(g, s, p, b);
    case Modify(p, b, data) => ModifyKeeps(g, s, p, b, data);
    case Test(p, b) => TestKeeps(g, s, p, b);
    case LogWrite(p, b) => LogWriteKeeps(g, s, p, b);
    case Release(p, b) => ReleaseKeeps(g, s, p, b);
    case BeginOp(p) => BeginOpKeeps(g, s, p);
    case EndOp(p) => EndOpKeeps(g, s, p);
  }

  lemma CommitStepKeeps(g: Geometry, s: State, step: Step)
    requires Inv(g, s) && Enabled(g, s, step) && |s.cache| <= g.nbuf
    requires step.CopyToLog? || step.Seal? || step.CopyToHome? || step.Clear? || step.Close?
    ensures Inv(g, Do(g, s, step))
  {
    match step
    case CopyToLog => CopyToLogKeeps(g, s);
    case Seal => SealKeeps(g, s);
    case CopyToHome => CopyToHomeKeeps(g, s);
    case Clear => ClearKeeps(g, s);
    case Close => CloseKeeps(g, s);
  }

  lemma BootStepKeeps(g: Geometry, s: State, step: Step)
    requires Inv(g, s) && Enabled(g, s, step)
    requires step.Crash? || step.BootHead? || step.BootToHome? || step.BootErase?
    ensures Inv(g, Do(g, s, step))
  {
    match step
    case Crash(p) => CrashKeeps(g, s, p);
    case BootHead => BootHeadKeeps(g, s);
    case BootToHome => BootToHomeKeeps(g, s);
    case BootErase => BootEraseKeeps(g, s);
  }

  lemma StepKeeps(g: Geometry, s: State, step: Step)
    requires Inv(g, s) && Enabled(g, s, step) && Roomy(g, s, step) && |s.cache| <= g.nbuf
    ensures Inv(g, Do(g, s, step))
  {
    if step.CopyToLog? || step.Seal? || step.CopyToHome? || step.Clear? || step.Close? {
      CommitStepKeeps(g, s, step);
    } else if step.Crash? || step.BootHead? || step.BootToHome? || step.BootErase? {
      BootStepKeeps(g, s, step);
    } else {
      ProcessStepKeeps(g, s, step);
    }
  }
}
