/**
 The logging layer as a transition system: any number of processes run file-system
 operations through the buffer cache, one of them commits, and the machine may
 crash between any two block writes, in recovery too.

 A step is what one process does between two points where another may run: taking
 a buffer, loading it, changing it, `brelse`, `begin_op`, `end_op`, one block copied by
 `write_log` or `install_trans`, one header write. `log_write` is two steps: it tests the
 length of the list before it takes the lock, and records the block after.
 */
module LogProtocol {
  import opened LogFormat
  import opened Options

  type Pid = nat

  /** A buffer. `touched`: its holder changed the data and has not called `log_write` since. */
  datatype Buf = Buf(data: Block, valid: bool, dirty: bool, busy: Option<Pid>, touched: bool)

  /**
   A system call between `begin_op` and `end_op`: its number, its `log_write` calls so far, and
   the block it is logging while it is past the test of `log_write` but does not have the lock.
   */
  datatype Op = Op(id: nat, used: nat, passed: Option<nat>)

  /** One `log_write` call: who, in which commit group, which block, with what content. */
  datatype Event = Event(op: nat, group: nat, block: nat, data: Block)

  datatype Phase =
    | Running              // committing == 0
    | CopyLog(tail: nat)   // write_log, next slot
    | SealHead             // first write_head of commit
    | CopyHome(tail: nat)  // install_trans, next block
    | ClearHead            // second write_head of commit
    | Closing              // commit returned, committing still 1
    | BootRead             // recover_from_log: read_head
    | BootCopy(tail: nat)  //   install_trans
    | BootClear            //   write_head

  datatype State = State(
    disk: seq<Block>,
    cache: map<nat, Buf>,     // the assigned buffers
    lh: seq<nat>,             // log.lh
    ops: map<Pid, Op>,        // log.outstanding is its size
    phase: Phase,
    owner: Pid,               // who commits or recovers
    // history
    img: seq<Block>,          // home blocks as of the last commit
    done: seq<Event>,         // log_writes of committed groups
    cur: seq<Event>,          // log_writes of the open group
    groups: nat,              // number of committed groups
    nextOp: nat)

  predicate Booting(ph: Phase) {
    ph.BootRead? || ph.BootCopy? || ph.BootClear?
  }

  /** log.committing */
  predicate Committing(ph: Phase) {
    !ph.Running? && !Booting(ph)
  }

  /** The header on disk names the open transaction only in these phases. */
  predicate Sealed(ph: Phase) {
    ph.CopyHome? || ph.ClearHead?
  }

  /** Block contents after a list of log_writes. */
  function Written(img: seq<Block>, evs: seq<Event>): (r: seq<Block>)
    ensures |r| == |img|
    decreases |evs|
  {
    if evs == [] then img
    else
      var r := Written(img, evs[..|evs| - 1]);
      var e := evs[|evs| - 1];
      if e.block < |r| then r[e.block := e.data] else r
  }

  function Latest(s: State): seq<Block> {
    Written(s.img, s.cur)
  }

  datatype Step =
    | Hit(p: Pid, b: nat)                         // bget finds the block, not busy
    | Miss(p: Pid, b: nat, victim: Option<nat>)   // bget recycles a buffer
    | Load(p: Pid, b: nat)                        // bread: iderw on an invalid buffer
    | Modify(p: Pid, b: nat, data: Block)         // the caller changes bp->data
    | Test(p: Pid, b: nat)                        // log_write up to acquire: the list is not full
    | LogWrite(p: Pid, b: nat)                    // log_write under the lock
    | Release(p: Pid, b: nat)                     // brelse
    | BeginOp(p: Pid)
    | EndOp(p: Pid)
    | CopyToLog
    | Seal
    | CopyToHome
    | Clear
    | Close
    | Crash(p: Pid)                               // p will be the first process after reboot
    | BootHead
    | BootToHome
    | BootErase

  predicate Holds(s: State, p: Pid, b: nat) {
    b in s.cache && s.cache[b].busy == Some(p)
  }

  predicate HoldsValid(s: State, p: Pid, b: nat) {
    Holds(s, p, b) && s.cache[b].valid
  }

  /** The owner holds the header block; `initlog` checked that a header fits in it. */
  predicate HoldsHead(g: Geometry, s: State) {
    HoldsValid(s, s.owner, g.logStart) && |s.lh| < |s.cache[g.logStart].data|
  }

  /** Process p is not inside `log_write`. */
  predicate Idle(s: State, p: Pid) {
    p in s.ops ==> s.ops[p].passed.None?
  }

  /** Until recovery is over only the recovering process exists. */
  predicate MayRun(s: State, p: Pid) {
    Idle(s, p) && (Booting(s.phase) ==> p == s.owner)
  }

  predicate Room(g: Geometry, s: State, b: nat, victim: Option<nat>) {
    match victim
    case None => |s.cache| < g.nbuf
    case Some(v) => v in s.cache && s.cache[v].busy.None? && !s.cache[v].dirty
  }

  /** `log_write` panics with "too big a transaction". */
  predicate TooBig(g: Geometry, s: State) {
    |s.lh| >= g.logSize || |s.lh| + 1 >= g.nlog
  }

  /** When the code takes the step: its own guards, and its callers' obligations. */
  ghost predicate Enabled(g: Geometry, s: State, step: Step) {
    match step
    case Hit(p, b) => MayRun(s, p) && b in s.cache && s.cache[b].busy.None?
    case Miss(p, b, v) => MayRun(s, p) && b < g.nblocks && b !in s.cache && Room(g, s, b, v)
    case Load(p, b) => Idle(s, p) && Holds(s, p, b) && !s.cache[b].valid
    case Modify(p, b, data) => p in s.ops && Idle(s, p) && g.Home(b) && HoldsValid(s, p, b) && |data| == g.words
    case Test(p, b) => p in s.ops && Idle(s, p) && g.Home(b) && HoldsValid(s, p, b) && !TooBig(g, s)
    case LogWrite(p, b) => p in s.ops && s.ops[p].passed == Some(b) && g.Home(b) && HoldsValid(s, p, b)
    case Release(p, b) => Idle(s, p) && Holds(s, p, b) && !s.cache[b].touched
    case BeginOp(p) =>
      && s.phase.Running? && p !in s.ops
      && |s.lh| + (|s.ops| + 1) * g.maxOp <= g.logSize
    case EndOp(p) =>
      && p in s.ops && Idle(s, p)
      && forall b :: Holds(s, p, b) ==> !s.cache[b].touched
    case CopyToLog =>
      && s.phase.CopyLog? && s.phase.tail < |s.lh|
      && HoldsValid(s, s.owner, g.logStart + 1 + s.phase.tail)
      && HoldsValid(s, s.owner, s.lh[s.phase.tail])
    case Seal => s.phase.SealHead? && HoldsHead(g, s)
    case CopyToHome =>
      && s.phase.CopyHome? && s.phase.tail < |s.lh|
      && HoldsValid(s, s.owner, g.logStart + 1 + s.phase.tail)
      && HoldsValid(s, s.owner, s.lh[s.phase.tail])
    case Clear => s.phase.ClearHead? && HoldsHead(g, s)
    case Close => s.phase.Closing? || (s.phase.CopyLog? && s.lh == [])
    case Crash(p) => true
    case BootHead => s.phase.BootRead? && HoldsValid(s, s.owner, g.logStart)
    case BootToHome =>
      && s.phase.BootCopy? && s.phase.tail < |s.lh|
      && HoldsValid(s, s.owner, g.logStart + 1 + s.phase.tail)
      && HoldsValid(s, s.owner, s.lh[s.phase.tail])
    case BootErase => s.phase.BootClear? && HoldsHead(g, s)
  }

  // ----- effects -----

  function Free(b: Buf): Buf {
    b.(busy := None)
  }

  function SetDisk(d: seq<Block>, b: nat, data: Block): (r: seq<Block>)
    ensures |r| == |d|
  {
    if b < |d| then d[b := data] else d
  }

  function DiskAt(d: seq<Block>, b: nat): Block {
    if b < |d| then d[b] else []
  }

  /** `log_write` on the header: absorb, or append. */
  function Logged(lh: seq<nat>, b: nat): seq<nat> {
    if b in lh then lh else lh + [b]
  }

  /** memmove from one held buffer to another, bwrite of the second, brelse of both. */
  function CopyBlock(s: State, from: nat, to: nat): (r: State)
    requires from in s.cache && to in s.cache
  {
    var data := s.cache[from].data;
    s.(disk := SetDisk(s.disk, to, data),
       cache := s.cache[from := Free(s.cache[from])][to := Buf(data, true, false, None, false)])
  }

  /** write_head: bread of the header, update, bwrite, brelse. */
  function WriteHead(g: Geometry, s: State, l: seq<nat>): (r: State)
    requires g.logStart in s.cache && |l| < |s.cache[g.logStart].data|
  {
    var data := WithEntries(s.cache[g.logStart].data, l);
    s.(disk := SetDisk(s.disk, g.logStart, data),
       cache := s.cache[g.logStart := Buf(data, true, false, None, false)],
       lh := l)
  }

  function AfterCopyLog(tail: nat, n: nat): Phase {
    if tail + 1 < n then CopyLog(tail + 1) else SealHead
  }

  function AfterCopyHome(tail: nat, n: nat): Phase {
    if tail + 1 < n then CopyHome(tail + 1) else ClearHead
  }

  function BootFrom(tail: nat, n: nat): Phase {
    if tail < n then BootCopy(tail) else BootClear
  }

  ghost function Do(g: Geometry, s: State, step: Step): (r: State)
    requires Enabled(g, s, step)
  {
    match step
    case Hit(p, b) => s.(cache := s.cache[b := s.cache[b].(busy := Some(p))])
    case Miss(p, b, v) =>
      var c := if v.Some? then s.cache - {v.value} else s.cache;
      s.(cache := c[b := Buf([], false, false, Some(p), false)])
    case Load(p, b) => s.(cache := s.cache[b := s.cache[b].(data := DiskAt(s.disk, b), valid := true)])
    case Modify(p, b, data) => s.(cache := s.cache[b := s.cache[b].(data := data, touched := true)])
    case Test(p, b) => s.(ops := s.ops[p := s.ops[p].(passed := Some(b))])
    case LogWrite(p, b) =>
      var buf := s.cache[b];
      s.(cache := s.cache[b := buf.(dirty := true, touched := false)],
         lh := Logged(s.lh, b),
         ops := s.ops[p := s.ops[p].(used := s.ops[p].used + 1, passed := None)],
         cur := s.cur + [Event(s.ops[p].id, s.groups, b, buf.data)])
    case Release(p, b) => s.(cache := s.cache[b := Free(s.cache[b])])
    case BeginOp(p) => s.(ops := s.ops[p := Op(s.nextOp, 0, None)], nextOp := s.nextOp + 1)
    case EndOp(p) =>
      var ops := s.ops - {p};
      if ops == map[] then s.(ops := ops, phase := CopyLog(0), owner := p) else s.(ops := ops)
    case CopyToLog =>
      var t := s.phase.tail;
      CopyBlock(s, s.lh[t], g.logStart + 1 + t).(phase := AfterCopyLog(t, |s.lh|))
    case Seal =>
      WriteHead(g, s, s.lh).(phase := CopyHome(0), img := Latest(s),
                             done := s.done + s.cur, cur := [], groups := s.groups + 1)
    case CopyToHome =>
      var t := s.phase.tail;
      CopyBlock(s, g.logStart + 1 + t, s.lh[t]).(phase := AfterCopyHome(t, |s.lh|))
    case Clear => WriteHead(g, s, []).(phase := Closing)
    case Close => s.(phase := Running)
    case Crash(p) =>
      s.(cache := map[], lh := [], ops := map[], phase := BootRead, owner := p, cur := [])
    case BootHead =>
      var l := Entries(s.cache[g.logStart].data);
      s.(cache := s.cache[g.logStart := Free(s.cache[g.logStart])], lh := l, phase := BootFrom(0, |l|))
    case BootToHome =>
      var t := s.phase.tail;
      CopyBlock(s, g.logStart + 1 + t, s.lh[t]).(phase := BootFrom(t + 1, |s.lh|))
    case BootErase => WriteHead(g, s, []).(phase := Running)
  }

  /** A disk as the previous shutdown left it, possibly with a committed log to replay. */
  ghost predicate Init(g: Geometry, s: State) {
    && Recoverable(g, s.disk, s.img)
    && s.cache == map[] && s.lh == [] && s.ops == map[] && s.phase.BootRead?
    && s.done == [] && s.cur == [] && s.groups == 0 && s.nextOp == 0
  }

  /** The states of a run: one more state than steps. */
  ghost predicate Run(g: Geometry, states: seq<State>, steps: seq<Step>) {
    && |states| == |steps| + 1
    && Init(g, states[0])
    && forall i {:trigger steps[i]} :: 0 <= i < |steps| ==>
      Enabled(g, states[i], steps[i]) && states[i + 1] == Do(g, states[i], steps[i])
  }
}
