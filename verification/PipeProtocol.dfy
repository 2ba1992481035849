/**
 Readers and writers of one pipe as a transition system. p->lock is held from one sleep or return to
 the next; a step is one pass of a loop, taken by the holder of the lock.
 */
module PipeProtocol {
  import opened Pipe
  import opened Options

  type Pid = nat

  datatype Pc =
    | Idle
    | WriteWant(addr: seq<Byte>, i: nat)                // wants p->lock, at first or after sleeping
    | Writing(addr: seq<Byte>, i: nat, unsaid: bool)    // holds it; unsaid: stored bytes not yet signalled
    | WriteSleep(addr: seq<Byte>, i: nat)               // asleep on &p->nwrite
    | ReadWant(n: nat)
    | ReadTest(n: nat)                                  // holds p->lock, tests for bytes
    | ReadSleep(n: nat)                                 // asleep on &p->nread
    | Copying(n: nat, got: seq<Byte>)                   // holds p->lock, copies

  datatype State = State(
    data: seq<Byte>, nread: nat, nwrite: nat,
    readopen: bool, writeopen: bool,
    lock: Option<Pid>,
    pc: map<Pid, Pc>,         // absent: Idle
    killed: set<Pid>,
    // history
    accepted: seq<Byte>,      // bytes stored, in order
    taken: nat,               // how many of them were read
    delivered: seq<Byte>)     // bytes handed to readers, in order

  function At(s: State, p: Pid): Pc {
    if p in s.pc then s.pc[p] else Idle
  }

  function Go(s: State, p: Pid, pc: Pc): State {
    s.(pc := s.pc[p := pc])
  }

  /** wakeup(&p->nread) */
  function WakeReaders(pc: map<Pid, Pc>): map<Pid, Pc> {
    map p | p in pc :: if pc[p].ReadSleep? then ReadWant(pc[p].n) else pc[p]
  }

  /** wakeup(&p->nwrite) */
  function WakeWriters(pc: map<Pid, Pc>): map<Pid, Pc> {
    map p | p in pc :: if pc[p].WriteSleep? then WriteWant(pc[p].addr, pc[p].i) else pc[p]
  }

  predicate IsReader(pc: Pc) { pc.ReadWant? || pc.ReadTest? || pc.ReadSleep? || pc.Copying? }
  predicate IsWriter(pc: Pc) { pc.WriteWant? || pc.Writing? || pc.WriteSleep? }

  datatype Step =
    | StartWrite(p: Pid, addr: seq<Byte>)
    | StartRead(p: Pid, n: nat)
    | Lock(p: Pid)
    | WriteByte(p: Pid)
    | WriteWait(p: Pid)     // full: wake the readers and sleep
    | WriteFail(p: Pid)     // full, and the reader is gone or the writer was killed: return -1
    | WriteDone(p: Pid)     // wake the readers, return n
    | ReadWait(p: Pid)
    | ReadFail(p: Pid)      // killed while waiting: return -1
    | ReadStart(p: Pid)     // there are bytes, or the write end is closed
    | ReadByte(p: Pid)
    | ReadDone(p: Pid)      // wake the writers, return the bytes
    | CloseRead
    | CloseWrite
    | Kill(p: Pid)

  ghost predicate Enabled(s: State, step: Step) {
    match step
    case StartWrite(p, addr) => At(s, p).Idle? && s.writeopen
    case StartRead(p, n) => At(s, p).Idle? && s.readopen
    case Lock(p) => s.lock.None? && (At(s, p).WriteWant? || At(s, p).ReadWant?)
    case WriteByte(p) => At(s, p).Writing? && At(s, p).i < |At(s, p).addr| && !Full(s.nread, s.nwrite)
    case WriteWait(p) => At(s, p).Writing? && At(s, p).i < |At(s, p).addr| && Full(s.nread, s.nwrite) && s.readopen
      && p !in s.killed
    case WriteFail(p) => At(s, p).Writing? && At(s, p).i < |At(s, p).addr| && Full(s.nread, s.nwrite)
      && (!s.readopen || p in s.killed)
    case WriteDone(p) => At(s, p).Writing? && At(s, p).i >= |At(s, p).addr|
    case ReadWait(p) => At(s, p).ReadTest? && Empty(s.nread, s.nwrite) && s.writeopen && p !in s.killed
    case ReadFail(p) => At(s, p).ReadTest? && Empty(s.nread, s.nwrite) && s.writeopen && p in s.killed
    case ReadStart(p) => At(s, p).ReadTest? && !(Empty(s.nread, s.nwrite) && s.writeopen)
    case ReadByte(p) => At(s, p).Copying? && |At(s, p).got| < At(s, p).n && !Empty(s.nread, s.nwrite)
    case ReadDone(p) => At(s, p).Copying? && (|At(s, p).got| >= At(s, p).n || Empty(s.nread, s.nwrite))
    // the last reference to an end is dropped, so no call on that end is in progress
    case CloseRead => s.lock.None? && s.readopen && forall p :: p in s.pc ==> !IsReader(s.pc[p])
    case CloseWrite => s.lock.None? && s.writeopen && forall p :: p in s.pc ==> !IsWriter(s.pc[p])
    case Kill(p) => true
  }

  ghost function Do(s: State, step: Step): State
    requires Enabled(s, step) && |s.data| == PIPESIZE
  {
    match step
    case StartWrite(p, addr) => Go(s, p, WriteWant(addr, 0))
    case StartRead(p, n) => Go(s, p, ReadWant(n))
    case Lock(p) =>
      Go(s, p, if At(s, p).WriteWant? then Writing(At(s, p).addr, At(s, p).i, false)
        else ReadTest(At(s, p).n)).(lock := Some(p))
    case WriteByte(p) =>
      var c := At(s, p).addr[At(s, p).i];
      Go(s, p, Writing(At(s, p).addr, At(s, p).i + 1, true)).(
        data := s.data[s.nwrite % PIPESIZE := c], nwrite := Inc(s.nwrite), accepted := s.accepted + [c])
    case WriteWait(p) => Go(s.(pc := WakeReaders(s.pc)), p, WriteSleep(At(s, p).addr, At(s, p).i)).(lock := None)
    case WriteFail(p) => Go(s, p, Idle).(lock := None)
    case WriteDone(p) => Go(s.(pc := WakeReaders(s.pc)), p, Idle).(lock := None)
    case ReadWait(p) => Go(s, p, ReadSleep(At(s, p).n)).(lock := None)
    case ReadFail(p) => Go(s, p, Idle).(lock := None)
    case ReadStart(p) => Go(s, p, Copying(At(s, p).n, []))
    case ReadByte(p) =>
      Go(s, p, Copying(At(s, p).n, At(s, p).got + [s.data[s.nread % PIPESIZE]])).(
        nread := Inc(s.nread), taken := s.taken + 1, delivered := s.delivered + [s.data[s.nread % PIPESIZE]])
    case ReadDone(p) => Go(s.(pc := WakeWriters(s.pc)), p, Idle).(lock := None)
    case CloseRead => s.(readopen := false, pc := WakeWriters(s.pc))
    case CloseWrite => s.(writeopen := false, pc := WakeReaders(s.pc))
    case Kill(p) =>
      var pc := At(s, p);
      var r := if pc.ReadSleep? then Go(s, p, ReadWant(pc.n)) else if pc.WriteSleep?
        then Go(s, p, WriteWant(pc.addr, pc.i)) else s;
      r.(killed := s.killed + {p})
  }

  /** pipealloc */
  ghost predicate Init(s: State) {
    && |s.data| == PIPESIZE && s.nread == 0 && s.nwrite == 0 && s.readopen && s.writeopen
    && s.lock.None? && s.pc == map[] && s.accepted == [] && s.taken == 0 && s.delivered == []
  }

  // ----- invariant -----

  predicate Holds(pc: Pc) { pc.Writing? || pc.ReadTest? || pc.Copying? }

  ghost predicate Ring(s: State) {
    && RingOk(s.data, s.nread, s.nwrite, s.accepted, s.taken)
    && s.delivered == s.accepted[..s.taken]
  }

  ghost predicate ProcOk(s: State, p: Pid) {
    var pc := At(s, p);
    && (Holds(pc) <==> s.lock == Some(p))
    && (IsReader(pc) ==> s.readopen)
    && (IsWriter(pc) ==> s.writeopen)
    // copied bytes are the last ones taken; an empty copy starts only with bytes there or the writers gone
    && (pc.Copying? ==> |pc.got| <= s.taken <= |s.accepted| && pc.got == s.accepted[s.taken - |pc.got|..s.taken])
    && (pc.Copying? && pc.got == [] ==> s.taken < |s.accepted| || !s.writeopen)
    && (pc.Writing? && pc.unsaid ==> s.taken < |s.accepted|)
  }

  /** Bytes were taken and the writers not told yet. */
  predicate ReaderOwesWakeup(s: State) {
    s.lock.Some? && At(s, s.lock.value).Copying? && At(s, s.lock.value).got != []
  }

  /** Bytes were stored and the readers not told yet. */
  predicate WriterOwesWakeup(s: State) {
    s.lock.Some? && At(s, s.lock.value).Writing? && At(s, s.lock.value).unsaid
  }

  /** A writer sleeps only on a full pipe that has a reader. */
  ghost predicate WriterSleepOk(s: State, p: Pid) {
    At(s, p).WriteSleep? ==> s.readopen && (|s.accepted| == s.taken + PIPESIZE || ReaderOwesWakeup(s))
  }

  /** A reader sleeps only on an empty pipe that has a writer. */
  ghost predicate ReaderSleepOk(s: State, p: Pid) {
    At(s, p).ReadSleep? ==> s.writeopen && (|s.accepted| == s.taken || WriterOwesWakeup(s))
  }

  ghost predicate Inv(s: State) {
    && Ring(s)
    && forall p: Pid :: ProcOk(s, p) && WriterSleepOk(s, p)
  }

  lemma RingKeeps(s: State, step: Step)
    requires Ring(s) && Enabled(s, step)
    ensures Ring(Do(s, step))
  {
    match step
    case WriteByte(p) => Put(s.data, s.nread, s.nwrite, s.accepted, s.taken, At(s, p).addr[At(s, p).i]);
    case ReadByte(p) => Get(s.data, s.nread, s.nwrite, s.accepted, s.taken);
    case _ =>
  }

  lemma WriterStepKeeps(s: State, step: Step, q: Pid)
    requires Inv(s) && Enabled(s, step)
    requires step.StartWrite? || step.WriteByte? || step.WriteWait? || step.WriteFail? || step.WriteDone?
    ensures ProcOk(Do(s, step), q) && WriterSleepOk(Do(s, step), q)
  {
    TestsAreExact(s.data, s.nread, s.nwrite, s.accepted, s.taken);
    assert ProcOk(s, step.p) && ProcOk(s, q) && WriterSleepOk(s, q);
  }

  lemma ReaderStepKeeps(s: State, step: Step, q: Pid)
    requires Inv(s) && Enabled(s, step)
    requires step.StartRead? || step.ReadWait? || step.ReadFail? || step.ReadStart? || step.ReadDone?
    ensures ProcOk(Do(s, step), q) && WriterSleepOk(Do(s, step), q)
  {
    TestsAreExact(s.data, s.nread, s.nwrite, s.accepted, s.taken);
    assert ProcOk(s, step.p) && ProcOk(s, q) && WriterSleepOk(s, q);
  }

  lemma ReadByteKeeps(s: State, p: Pid, q: Pid)
    requires Inv(s) && Enabled(s, ReadByte(p))
    ensures ProcOk(Do(s, ReadByte(p)), q) && WriterSleepOk(Do(s, ReadByte(p)), q)
  {
    assert ProcOk(s, p) && ProcOk(s, q) && WriterSleepOk(s, q);
    if q == p {
      ReaderKeeps(s, p);
    } else {
      Get(s.data, s.nread, s.nwrite, s.accepted, s.taken);
    }
  }

  lemma ReaderKeeps(s: State, p: Pid)
    requires Inv(s) && Enabled(s, ReadByte(p)) && ProcOk(s, p) && WriterSleepOk(s, p)
    ensures ProcOk(Do(s, ReadByte(p)), p) && WriterSleepOk(Do(s, ReadByte(p)), p)
  {
    Get(s.data, s.nread, s.nwrite, s.accepted, s.taken);
    TakenGrows(s.accepted, s.taken, At(s, p).got);
  }

  lemma TakenGrows(accepted: seq<Byte>, taken: nat, got: seq<Byte>)
    requires |got| <= taken < |accepted| && got == accepted[taken - |got|..taken]
    ensures got + [accepted[taken]] == accepted[taken + 1 - (|got| + 1)..taken + 1]
  {
  }

  lemma OtherStepKeeps(s: State, step: Step, q: Pid)
    requires Inv(s) && Enabled(s, step)
    requires step.Lock? || step.CloseRead? || step.CloseWrite? || step.Kill?
    ensures ProcOk(Do(s, step), q) && WriterSleepOk(Do(s, step), q)
  {
    assert ProcOk(s, q) && WriterSleepOk(s, q);
  }

  lemma StepKeeps(s: State, step: Step)
    requires Inv(s) && Enabled(s, step)
    ensures Inv(Do(s, step))
  {
    RingKeeps(s, step);
    forall q: Pid ensures ProcOk(Do(s, step), q) && WriterSleepOk(Do(s, step), q) {
      match step
      case StartRead(_, _) => ReaderStepKeeps(s, step, q);
      case ReadWait(_) => ReaderStepKeeps(s, step, q);
      case ReadFail(_) => ReaderStepKeeps(s, step, q);
      case ReadStart(_) => ReaderStepKeeps(s, step, q);
      case ReadDone(_) => ReaderStepKeeps(s, step, q);
      case ReadByte(p) => ReadByteKeeps(s, p, q);
      case Lock(_) => OtherStepKeeps(s, step, q);
      case CloseRead => OtherStepKeeps(s, step, q);
      case CloseWrite => OtherStepKeeps(s, step, q);
      case Kill(_) => OtherStepKeeps(s, step, q);
      case _ => WriterStepKeeps(s, step, q);
    }
  }

  ghost predicate Run(states: seq<State>, steps: seq<Step>) {
    && |states| == |steps| + 1 && Init(states[0])
    && forall i {:trigger steps[i]} :: 0 <= i < |steps| ==>
         && |states[i].data| == PIPESIZE && Enabled(states[i], steps[i])
         && states[i + 1] == Do(states[i], steps[i])
  }

  lemma {:induction false} RunInv(states: seq<State>, steps: seq<Step>, i: nat)
    requires Run(states, steps) && i < |states|
    ensures Inv(states[i])
  {
    if i > 0 {
      RunInv(states, steps, i - 1);
      StepKeeps(states[i - 1], steps[i - 1]);
    }
  }

  // ----- theorems -----

  /** First in, first out: what readers got is a prefix of what writers stored, at most PIPESIZE bytes behind. */
  lemma Fifo(states: seq<State>, steps: seq<Step>, i: nat)
    requires Run(states, steps) && i < |states|
    ensures states[i].delivered <= states[i].accepted
    ensures |states[i].accepted| <= |states[i].delivered| + PIPESIZE
  {
    RunInv(states, steps, i);
  }

  /** A read of nothing means end of file: the write end is closed and everything stored was delivered. */
  lemma ZeroReadIsEof(states: seq<State>, steps: seq<Step>, i: nat)
    requires Run(states, steps) && i < |steps| && steps[i].ReadDone?
    requires At(states[i], steps[i].p).got == [] && At(states[i], steps[i].p).n > 0
    ensures !states[i].writeopen && states[i].delivered == states[i].accepted
  {
    RunInv(states, steps, i);
    var s := states[i];
    assert ProcOk(s, steps[i].p);
    TestsAreExact(s.data, s.nread, s.nwrite, s.accepted, s.taken);
  }

  /** Whenever the lock is free, a writer asleep means a full pipe with an open read end. */
  lemma SleepingWriterMeansFull(states: seq<State>, steps: seq<Step>, i: nat, p: Pid)
    requires Run(states, steps) && i < |states| && states[i].lock.None? && At(states[i], p).WriteSleep?
    ensures states[i].readopen && |states[i].accepted| == |states[i].delivered| + PIPESIZE
  {
    RunInv(states, steps, i);
    assert WriterSleepOk(states[i], p);
  }

  // ----- sleeping readers: exactly one step can leave one behind -----

  ghost predicate ReadersOk(s: State) {
    forall p: Pid :: ReaderSleepOk(s, p)
  }

  /** A killed writer gives up on a full pipe without having told the readers of the bytes it stored. */
  ghost predicate Forgets(s: State, step: Step) {
    && step.WriteFail? && At(s, step.p).Writing? && At(s, step.p).unsaid
    && exists q: Pid :: At(s, q).ReadSleep?
  }

  lemma ReaderSleepKept(s: State, step: Step, q: Pid)
    requires Inv(s) && ReadersOk(s) && Enabled(s, step) && !Forgets(s, step)
    requires !step.ReadByte? && !step.WriteByte? && !step.Lock?
    ensures ReaderSleepOk(Do(s, step), q)
  {
    TestsAreExact(s.data, s.nread, s.nwrite, s.accepted, s.taken);
    assert ProcOk(s, q) && ReaderSleepOk(s, q);
    assert step.CloseRead? || step.CloseWrite? || ProcOk(s, step.p);
  }

  lemma ReaderSleepKeptByBytes(s: State, step: Step, q: Pid)
    requires Inv(s) && ReadersOk(s) && Enabled(s, step)
    requires step.ReadByte? || step.WriteByte? || step.Lock?
    ensures ReaderSleepOk(Do(s, step), q)
  {
    TestsAreExact(s.data, s.nread, s.nwrite, s.accepted, s.taken);
    assert ProcOk(s, q) && ReaderSleepOk(s, q) && ProcOk(s, step.p);
  }

  /** Every step keeps sleeping readers justified, except exactly the forgetful one. */
  lemma ReadersKeptIff(s: State, step: Step)
    requires Inv(s) && ReadersOk(s) && Enabled(s, step)
    ensures ReadersOk(Do(s, step)) <==> !Forgets(s, step)
  {
    if !Forgets(s, step) {
      forall q: Pid ensures ReaderSleepOk(Do(s, step), q) {
        if step.ReadByte? || step.WriteByte? || step.Lock? {
          ReaderSleepKeptByBytes(s, step, q);
        } else {
          ReaderSleepKept(s, step, q);
        }
      }
    } else {
      var q: Pid :| At(s, q).ReadSleep?;
      assert ProcOk(s, step.p);
      assert !ReaderSleepOk(Do(s, step), q);
    }
  }

  lemma {:induction false} RunReaders(states: seq<State>, steps: seq<Step>, i: nat)
    requires Run(states, steps) && i < |states|
    requires forall j :: 0 <= j < i ==> !Forgets(states[j], steps[j])
    ensures ReadersOk(states[i])
  {
    if i > 0 {
      RunReaders(states, steps, i - 1);
      RunInv(states, steps, i - 1);
      ReadersKeptIff(states[i - 1], steps[i - 1]);
    }
  }

  /** In a run without that step, a reader asleep while the lock is free means an empty pipe with an open write end. */
  lemma SleepingReaderMeansEmpty(states: seq<State>, steps: seq<Step>, i: nat, p: Pid)
    requires Run(states, steps) && i < |states| && states[i].lock.None? && At(states[i], p).ReadSleep?
    requires forall j :: 0 <= j < i ==> !Forgets(states[j], steps[j])
    ensures states[i].writeopen && states[i].delivered == states[i].accepted
  {
    RunReaders(states, steps, i);
    RunInv(states, steps, i);
    assert ReaderSleepOk(states[i], p);
  }

  // ----- the forgetful step does happen -----

  lemma Extend(states: seq<State>, steps: seq<Step>, step: Step) returns (ss: seq<State>, ts: seq<Step>)
    requires Run(states, steps) && |states[|steps|].data| == PIPESIZE && Enabled(states[|steps|], step)
    ensures Run(ss, ts) && ss[|ts|] == Do(states[|steps|], step)
  {
    ss, ts := states + [Do(states[|steps|], step)], steps + [step];
    forall i | 0 <= i < |ts|
      ensures |ss[i].data| == PIPESIZE && Enabled(ss[i], ts[i]) && ss[i + 1] == Do(ss[i], ts[i])
    {
      if i < |steps| {
        assert ss[i] == states[i] && ss[i + 1] == states[i + 1] && ts[i] == steps[i];
      }
    }
  }

  /** Process 0 sleeps in read; process 1, already killed, has stored `k` bytes of a long write. */
  ghost predicate Filling(s: State, k: nat) {
    && |s.data| == PIPESIZE && s.readopen && s.writeopen && s.lock == Some(1) && 1 in s.killed
    && At(s, 0) == ReadSleep(1)
    && At(s, 1).Writing? && |At(s, 1).addr| == PIPESIZE + 1 && At(s, 1).i == k && (At(s, 1).unsaid <==> k > 0)
    && s.nread == 0 && s.nwrite == k
  }

  /** Process 0 sleeps in read on a fresh pipe. */
  ghost predicate ReaderWaits(s: State) {
    && |s.data| == PIPESIZE && s.readopen && s.writeopen && s.lock.None?
    && s.pc == map[0 := ReadSleep(1)] && s.nread == 0 && s.nwrite == 0
  }

  lemma FillRead() returns (states: seq<State>, steps: seq<Step>)
    ensures Run(states, steps) && ReaderWaits(states[|steps|])
  {
    var s := State(seq(PIPESIZE, _ => 0), 0, 0, true, true, None, map[], {}, [], 0, []);
    states, steps := [s], [];
    states, steps := Extend(states, steps, StartRead(0, 1));
    states, steps := Extend(states, steps, Lock(0));
    states, steps := Extend(states, steps, ReadWait(0));
  }

  lemma FillStart() returns (states: seq<State>, steps: seq<Step>)
    ensures Run(states, steps) && Filling(states[|steps|], 0)
  {
    states, steps := FillRead();
    states, steps := Extend(states, steps, StartWrite(1, seq(PIPESIZE + 1, _ => 0)));
    states, steps := Extend(states, steps, Kill(1));
    states, steps := Extend(states, steps, Lock(1));
  }

  lemma {:induction false} Fill(k: nat) returns (states: seq<State>, steps: seq<Step>)
    requires k <= PIPESIZE
    ensures Run(states, steps) && Filling(states[|steps|], k)
  {
    if k == 0 {
      states, steps := FillStart();
    } else {
      states, steps := Fill(k - 1);
      states, steps := Extend(states, steps, WriteByte(1));
    }
  }

  /** A run ends with a reader asleep, the lock free and a full pipe. */
  lemma ReaderLeftAsleep() returns (states: seq<State>, steps: seq<Step>)
    ensures Run(states, steps)
    ensures var s := states[|steps|];
      s.lock.None? && At(s, 0).ReadSleep? && |s.accepted| == |s.delivered| + PIPESIZE
  {
    states, steps := Fill(PIPESIZE);
    states, steps := Extend(states, steps, WriteFail(1));
    RunInv(states, steps, |steps|);
    var s := states[|steps|];
    TestsAreExact(s.data, s.nread, s.nwrite, s.accepted, s.taken);
  }
}
