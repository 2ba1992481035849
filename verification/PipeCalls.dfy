/**
 What single calls on a pipe come to, over whole runs: a write stores the bytes it was given, in order and
 each once, however calls interleave; a read returns the bytes it took; and closing or killing lets
 nobody sleep on.
 */
module PipeCalls {
  import opened Pipe
  import opened PipeProtocol
  import opened Options

  // ----- who stored and who took each byte -----

  predicate Moves(step: Step, reading: bool) {
    if reading then step.ReadByte? else step.WriteByte?
  }

  /** The process behind each byte stored, or read, in the first `n` steps. */
  function Marks(steps: seq<Step>, n: nat, reading: bool): seq<Pid> {
    if n == 0 || n > |steps| then []
    else if Moves(steps[n - 1], reading) then Marks(steps, n - 1, reading) + [steps[n - 1].p]
    else Marks(steps, n - 1, reading)
  }

  /** The bytes marked `p`, in order. */
  function Of(bytes: seq<Byte>, marks: seq<Pid>, p: Pid): seq<Byte>
    decreases |bytes|
  {
    if bytes == [] || |marks| != |bytes| then []
    else
      var k := |bytes| - 1;
      Of(bytes[..k], marks[..k], p) + if marks[k] == p then [bytes[k]] else []
  }

  /** Bytes accepted, or delivered, so far. */
  function Passed(s: State, reading: bool): seq<Byte> {
    if reading then s.delivered else s.accepted
  }

  /** What p stored, or read, between states `a` and `n`. */
  function Share(states: seq<State>, steps: seq<Step>, a: nat, n: nat, p: Pid, reading: bool): seq<Byte>
    requires a <= n < |states|
  {
    var from, all, marks := |Passed(states[a], reading)|, Passed(states[n], reading), Marks(steps, n, reading);
    if from <= |all| == |marks| then Of(all[from..], marks[from..], p) else []
  }

  /** The bytes a step adds. */
  function Added(s: State, r: State, reading: bool): seq<Byte> {
    if |Passed(s, reading)| <= |Passed(r, reading)| then Passed(r, reading)[|Passed(s, reading)|..] else []
  }

  lemma OfAppend(bytes: seq<Byte>, marks: seq<Pid>, p: Pid, c: Byte, q: Pid)
    requires |bytes| == |marks|
    ensures Of(bytes + [c], marks + [q], p) == Of(bytes, marks, p) + if q == p then [c] else []
  {
    assert (bytes + [c])[..|bytes|] == bytes && (marks + [q])[..|bytes|] == marks;
  }

  lemma RunStep(states: seq<State>, steps: seq<Step>, k: nat)
    requires Run(states, steps) && k < |steps|
    ensures |states[k].data| == PIPESIZE && Enabled(states[k], steps[k]) && states[k + 1] == Do(states[k], steps[k])
  {
  }

  lemma StepPasses(s: State, step: Step, r: State, reading: bool)
    requires |s.data| == PIPESIZE && Enabled(s, step) && r == Do(s, step)
    ensures if Moves(step, reading) then
        |Passed(r, reading)| == |Passed(s, reading)| + 1 && Passed(s, reading) <= Passed(r, reading)
      else Passed(r, reading) == Passed(s, reading)
  {
  }

  lemma RunPasses(states: seq<State>, steps: seq<Step>, m: nat, n: nat, reading: bool)
    requires Run(states, steps) && n == m + 1 < |states|
    ensures if Moves(steps[m], reading) then
        && |Passed(states[n], reading)| == |Passed(states[m], reading)| + 1
        && Passed(states[m], reading) <= Passed(states[n], reading)
      else Passed(states[n], reading) == Passed(states[m], reading)
  {
    RunStep(states, steps, m);
    StepPasses(states[m], steps[m], states[n], reading);
  }

  /** Every byte has its mark. */
  lemma {:induction false} MarksFit(states: seq<State>, steps: seq<Step>, n: nat, reading: bool)
    requires Run(states, steps) && n < |states|
    ensures |Marks(steps, n, reading)| == |Passed(states[n], reading)|
  {
    if n > 0 {
      MarksFit(states, steps, n - 1, reading);
      RunPasses(states, steps, n - 1, n, reading);
    }
  }

  /** Bytes are only added. */
  lemma {:induction false} PassedGrows(states: seq<State>, steps: seq<Step>, a: nat, n: nat, reading: bool)
    requires Run(states, steps) && a <= n < |states|
    ensures |Passed(states[a], reading)| <= |Passed(states[n], reading)|
    decreases n
  {
    if a < n {
      PassedGrows(states, steps, a, n - 1, reading);
      RunPasses(states, steps, n - 1, n, reading);
    }
  }

  /** One step adds its byte to the share of the process that took it, and to no other. */
  lemma ShareNext(states: seq<State>, steps: seq<Step>, a: nat, m: nat, n: nat, p: Pid, reading: bool)
    requires Run(states, steps) && a <= m && n == m + 1 < |states|
    ensures Share(states, steps, a, n, p, reading) ==
      Share(states, steps, a, m, p, reading) +
      if Moves(steps[m], reading) && steps[m].p == p then Added(states[m], states[n], reading) else []
  {
    MarksFit(states, steps, m, reading);
    MarksFit(states, steps, n, reading);
    PassedGrows(states, steps, a, m, reading);
    RunPasses(states, steps, m, n, reading);
    if Moves(steps[m], reading) {
      Extended(Passed(states[m], reading), Passed(states[n], reading), Marks(steps, m, reading),
               |Passed(states[a], reading)|, p, steps[m].p);
    }
  }

  lemma Extended(old': seq<Byte>, all: seq<Byte>, marks: seq<Pid>, from: nat, p: Pid, q: Pid)
    requires old' <= all && |all| == |old'| + 1 && |marks| == |old'| && from <= |old'|
    ensures Of(all[from..], (marks + [q])[from..], p) ==
      Of(old'[from..], marks[from..], p) + if q == p then all[|old'|..] else []
  {
    assert all[from..] == old'[from..] + [all[|old'|]] && (marks + [q])[from..] == marks[from..] + [q];
    OfAppend(old'[from..], marks[from..], p, all[|old'|], q);
  }

  // ----- a write call -----

  predicate EndsWrite(step: Step, p: Pid) { step == WriteDone(p) || step == WriteFail(p) }

  /** Process p is writing `addr` and has stored `i` bytes of it. */
  predicate WritesOf(s: State, p: Pid, addr: seq<Byte>, i: nat) {
    IsWriter(At(s, p)) && At(s, p).addr == addr && At(s, p).i == i && i <= |addr|
  }

  /** A step of anybody: the call goes on, and stores the next byte if it is the call's own. */
  lemma WriteCallStep(s: State, step: Step, r: State, p: Pid, addr: seq<Byte>, i: nat) returns (i': nat)
    requires |s.data| == PIPESIZE && Enabled(s, step) && r == Do(s, step)
    requires WritesOf(s, p, addr, i) && !EndsWrite(step, p)
    ensures WritesOf(r, p, addr, i')
    ensures addr[..i'] == addr[..i] + if Moves(step, false) && step.p == p then Added(s, r, false) else []
  {
    if step == WriteByte(p) {
      i' := i + 1;
      assert Added(s, r, false) == [addr[i]];
    } else {
      i' := i;
      OthersWrite(s, step, r, p, addr, i);
    }
  }

  lemma OthersWrite(s: State, step: Step, r: State, p: Pid, addr: seq<Byte>, i: nat)
    requires |s.data| == PIPESIZE && Enabled(s, step) && r == Do(s, step)
    requires WritesOf(s, p, addr, i) && !EndsWrite(step, p) && step != WriteByte(p)
    ensures WritesOf(r, p, addr, i)
  {
    if Foreign(step, p) { Undisturbed(s, step, r, p); }
  }

  predicate Foreign(step: Step, p: Pid) { step.CloseRead? || step.CloseWrite? || step.p != p }

  /** Process p is where it was, or was woken up. */
  predicate Woken(x: Pc, y: Pc) {
    y == x || (x.WriteSleep? && y == WriteWant(x.addr, x.i)) || (x.ReadSleep? && y == ReadWant(x.n))
  }

  predicate Wakes(step: Step) {
    step.WriteWait? || step.WriteDone? || step.ReadDone? || step.CloseRead? || step.CloseWrite?
  }

  /** What a step does to a process that does not take it: at most it is woken up. */
  lemma Undisturbed(s: State, step: Step, r: State, p: Pid)
    requires |s.data| == PIPESIZE && Enabled(s, step) && r == Do(s, step) && Foreign(step, p)
    ensures Woken(At(s, p), At(r, p))
  {
    if Wakes(step) { WakesAt(s, step, r, p); } else { LeavesAt(s, step, r, p); }
  }

  lemma LeavesAt(s: State, step: Step, r: State, p: Pid)
    requires |s.data| == PIPESIZE && Enabled(s, step) && r == Do(s, step) && Foreign(step, p) && !Wakes(step)
    ensures At(r, p) == At(s, p)
  {
  }

  lemma WakesAt(s: State, step: Step, r: State, p: Pid)
    requires |s.data| == PIPESIZE && Enabled(s, step) && r == Do(s, step) && Foreign(step, p) && Wakes(step)
    ensures Woken(At(s, p), At(r, p))
  {
    var readers, writers := WakeReaders(s.pc), WakeWriters(s.pc);
    assert step.CloseRead? || step.ReadDone? || (p in r.pc <==> p in readers);
  }

  /** In every state of a write call, what it has stored so far is exactly the first bytes it was given. */
  lemma {:induction false} WriteCall(
      states: seq<State>, steps: seq<Step>, a: nat, n: nat, p: Pid, addr: seq<Byte>) returns (i: nat)
    requires Run(states, steps) && a < n < |states| && steps[a] == StartWrite(p, addr)
    requires forall k :: a < k < n ==> !EndsWrite(steps[k], p)
    ensures WritesOf(states[n], p, addr, i) && Share(states, steps, a, n, p, false) == addr[..i]
    decreases n
  {
    if n == a + 1 {
      i := 0;
      CallStarts(states, steps, a, n, p, false);
      RunStep(states, steps, a);
    } else {
      i := WriteCall(states, steps, a, n - 1, p, addr);
      i := WriteCallNext(states, steps, a, n - 1, n, p, addr, i);
    }
  }

  lemma WriteCallNext(states: seq<State>, steps: seq<Step>, a: nat, m: nat, n: nat, p: Pid, addr: seq<Byte>, i: nat)
    returns (i': nat)
    requires Run(states, steps) && a <= m && n == m + 1 < |states| && !EndsWrite(steps[m], p)
    requires WritesOf(states[m], p, addr, i) && Share(states, steps, a, m, p, false) == addr[..i]
    ensures WritesOf(states[n], p, addr, i') && Share(states, steps, a, n, p, false) == addr[..i']
  {
    ShareNext(states, steps, a, m, n, p, false);
    RunStep(states, steps, m);
    i' := WriteCallStep(states[m], steps[m], states[n], p, addr, i);
  }

  /** A call that starts has moved nothing. */
  lemma CallStarts(states: seq<State>, steps: seq<Step>, a: nat, n: nat, p: Pid, reading: bool)
    requires Run(states, steps) && n == a + 1 < |states| && (steps[a].StartWrite? || steps[a].StartRead?)
    ensures Share(states, steps, a, n, p, reading) == []
  {
    MarksFit(states, steps, n, reading);
    RunPasses(states, steps, a, n, reading);
  }

  /** A write that returns its count has stored all it was given, in order, each byte once. */
  lemma WriteReturns(states: seq<State>, steps: seq<Step>, a: nat, n: nat, p: Pid, addr: seq<Byte>)
    requires Run(states, steps) && a < n < |steps| && steps[a] == StartWrite(p, addr) && EndsWrite(steps[n], p)
    requires forall k :: a < k < n ==> !EndsWrite(steps[k], p)
    ensures steps[n] == WriteDone(p) ==> Share(states, steps, a, n, p, false) == addr
    ensures steps[n] == WriteFail(p) ==>
      && Share(states, steps, a, n, p, false) < addr && (!states[n].readopen || p in states[n].killed)
      && |states[n].accepted| == |states[n].delivered| + PIPESIZE
  {
    var i := WriteCall(states, steps, a, n, p, addr);
    RunStep(states, steps, n);
    RunInv(states, steps, n);
    var s := states[n];
    TestsAreExact(s.data, s.nread, s.nwrite, s.accepted, s.taken);
  }

  // ----- a read call -----

  predicate EndsRead(step: Step, p: Pid) { step == ReadDone(p) || step == ReadFail(p) }

  /** Process p is reading at most `want` bytes and has taken `got` so far. */
  predicate ReadsOf(s: State, p: Pid, want: nat, got: seq<Byte>) {
    && IsReader(At(s, p)) && At(s, p).n == want && |got| <= want
    && got == if At(s, p).Copying? then At(s, p).got else []
  }

  lemma ReadCallStep(s: State, step: Step, r: State, p: Pid, want: nat, got: seq<Byte>)
    requires |s.data| == PIPESIZE && Enabled(s, step) && r == Do(s, step)
    requires ReadsOf(s, p, want, got) && !EndsRead(step, p)
    ensures ReadsOf(r, p, want, got + if Moves(step, true) && step.p == p then Added(s, r, true) else [])
  {
    if Foreign(step, p) {
      Undisturbed(s, step, r, p);
    } else {
      assert step.ReadByte? ==> Added(s, r, true) == r.delivered[|s.delivered|..];
    }
  }

  /** In every state of a read call, its buffer holds exactly the bytes it took off the pipe. */
  lemma {:induction false} ReadCall(
      states: seq<State>, steps: seq<Step>, a: nat, n: nat, p: Pid, want: nat) returns (got: seq<Byte>)
    requires Run(states, steps) && a < n < |states| && steps[a] == StartRead(p, want)
    requires forall k :: a < k < n ==> !EndsRead(steps[k], p)
    ensures ReadsOf(states[n], p, want, got) && Share(states, steps, a, n, p, true) == got
    decreases n
  {
    if n == a + 1 {
      got := [];
      CallStarts(states, steps, a, n, p, true);
      RunStep(states, steps, a);
    } else {
      got := ReadCall(states, steps, a, n - 1, p, want);
      got := ReadCallNext(states, steps, a, n - 1, n, p, want, got);
    }
  }

  lemma ReadCallNext(states: seq<State>, steps: seq<Step>, a: nat, m: nat, n: nat, p: Pid, want: nat, got: seq<Byte>)
    returns (got': seq<Byte>)
    requires Run(states, steps) && a <= m && n == m + 1 < |states| && !EndsRead(steps[m], p)
    requires ReadsOf(states[m], p, want, got) && Share(states, steps, a, m, p, true) == got
    ensures ReadsOf(states[n], p, want, got') && Share(states, steps, a, n, p, true) == got'
  {
    ShareNext(states, steps, a, m, n, p, true);
    RunStep(states, steps, m);
    ReadCallStep(states[m], steps[m], states[n], p, want, got);
    got' := Share(states, steps, a, n, p, true);
  }

  /**
   A read returns the bytes it took, which are the last ones delivered and come one after the other, and it
   returns all it asked for or empties the pipe.
   */
  lemma ReadReturns(states: seq<State>, steps: seq<Step>, a: nat, n: nat, p: Pid, want: nat)
    requires Run(states, steps) && a < n < |steps| && steps[a] == StartRead(p, want) && steps[n] == ReadDone(p)
    requires forall k :: a < k < n ==> !EndsRead(steps[k], p)
    ensures At(states[n], p).Copying? && At(states[n], p).got == Share(states, steps, a, n, p, true)
    ensures var got, all := At(states[n], p).got, states[n].delivered;
      && |got| <= |all| && got == all[|all| - |got|..]
      && |got| <= want && (|got| < want ==> all == states[n].accepted)
  {
    var got := ReadCall(states, steps, a, n, p, want);
    RunStep(states, steps, n);
    RunInv(states, steps, n);
    var s := states[n];
    assert ProcOk(s, p);
    TestsAreExact(s.data, s.nread, s.nwrite, s.accepted, s.taken);
  }

  // ----- nobody sleeps on -----

  /** The read end is closed: no writer sleeps; the write end is closed: no reader does; nor does a killed process. */
  ghost predicate Alerted(s: State, p: Pid) {
    && (At(s, p).WriteSleep? ==> s.readopen && p !in s.killed)
    && (At(s, p).ReadSleep? ==> s.writeopen && p !in s.killed)
  }

  lemma StepAlerts(s: State, step: Step, r: State, p: Pid)
    requires |s.data| == PIPESIZE && Enabled(s, step) && r == Do(s, step) && Alerted(s, p)
    ensures Alerted(r, p)
  {
    StepCloses(s, step, r);
    if Foreign(step, p) { Undisturbed(s, step, r, p); }
  }

  lemma StepCloses(s: State, step: Step, r: State)
    requires |s.data| == PIPESIZE && Enabled(s, step) && r == Do(s, step)
    ensures r.readopen == (s.readopen && !step.CloseRead?) && r.writeopen == (s.writeopen && !step.CloseWrite?)
    ensures r.killed == if step.Kill? then s.killed + {step.p} else s.killed
  {
  }

  lemma {:induction false} RunAlerts(states: seq<State>, steps: seq<Step>, a: nat, n: nat, p: Pid)
    requires Run(states, steps) && a <= n < |states|
    ensures Alerted(states[n], p) && states[a].killed <= states[n].killed
    ensures (!states[a].readopen ==> !states[n].readopen) && (!states[a].writeopen ==> !states[n].writeopen)
    decreases n
  {
    if n > 0 {
      RunAlerts(states, steps, if a < n then a else n - 1, n - 1, p);
      RunStep(states, steps, n - 1);
      StepAlerts(states[n - 1], steps[n - 1], states[n], p);
      StepCloses(states[n - 1], steps[n - 1], states[n]);
    }
  }

  /** From the moment an end is closed nobody sleeps on the other end, and from a kill on that process does not. */
  lemma NobodySleepsOn(states: seq<State>, steps: seq<Step>, a: nat, n: nat, p: Pid)
    requires Run(states, steps) && a < |steps| && a < n < |states|
    ensures steps[a].CloseRead? ==> !states[n].readopen && !At(states[n], p).WriteSleep?
    ensures steps[a].CloseWrite? ==> !states[n].writeopen && !At(states[n], p).ReadSleep?
    ensures steps[a] == Kill(p) ==> !At(states[n], p).WriteSleep? && !At(states[n], p).ReadSleep?
  {
    RunAlerts(states, steps, a, a, p);
    RunStep(states, steps, a);
    StepCloses(states[a], steps[a], states[a + 1]);
    RunAlerts(states, steps, a + 1, n, p);
  }
}
