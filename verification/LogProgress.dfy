/**
 A commit can always be finished, and so can recovery: steps are found that lead to a quiet log. For a
 commit that is so exactly if its list leaves a buffer for the log blocks and fits the header.
 */
module LogProgress {
  import opened LogFormat
  import opened LogProtocol
  import opened LogSafety
  import opened LogTheorems
  import opened LogDurability
  import opened Options

  /** The state after some steps, if the code takes them. */
  ghost function After(g: Geometry, s: State, ts: seq<Step>): Option<State>
    decreases |ts|
  {
    if ts == [] then Some(s)
    else
      match After(g, s, ts[..|ts| - 1])
      case None => None
      case Some(m) => if Enabled(g, m, ts[|ts| - 1]) then Some(Do(g, m, ts[|ts| - 1])) else None
  }

  /** Steps from `s` to `r` without a crash, in which nothing is logged. */
  ghost predicate Leads(g: Geometry, s: State, ts: seq<Step>, r: State) {
    After(g, s, ts) == Some(r) && forall k :: 0 <= k < |ts| ==> !ts[k].Crash? && !ts[k].LogWrite?
  }

  lemma More(g: Geometry, s: State, ts: seq<Step>, m: State, step: Step, r: State) returns (ts': seq<Step>)
    requires Leads(g, s, ts, m) && Enabled(g, m, step) && r == Do(g, m, step) && !step.Crash? && !step.LogWrite?
    ensures Leads(g, s, ts', r)
  {
    ts' := ts + [step];
    assert ts'[..|ts|] == ts;
  }

  lemma LastOf(g: Geometry, s: State, ts: seq<Step>, r: State) returns (before: seq<Step>, m: State, step: Step)
    requires Leads(g, s, ts, r) && ts != []
    ensures Leads(g, s, before, m) && |before| < |ts| && Enabled(g, m, step) && r == Do(g, m, step)
    ensures !step.Crash? && !step.LogWrite?
  {
    var n := |ts| - 1;
    before, step := ts[..n], ts[n];
    m := After(g, s, before).value;
  }

  lemma {:induction false} LeadsKeeps(g: Geometry, s: State, ts: seq<Step>, r: State)
    requires Leads(g, s, ts, r)
    ensures r.done + r.cur == s.done + s.cur && Latest(r) == Latest(s)
    decreases |ts|
  {
    if ts != [] {
      var before, m, step := LastOf(g, s, ts, r);
      LeadsKeeps(g, s, before, m);
      StepRecords(g, m, step, r);
      assert m.done + m.cur + [] == m.done + m.cur;
    }
  }

  // ----- getting a buffer -----

  /** Between operations: the invariant, and the owner holds exactly the blocks `h`, and nobody any other. */
  ghost predicate Works(g: Geometry, s: State, h: set<nat>) {
    && Inv(g, s) && |s.cache| <= g.nbuf && !s.phase.Running?
    && (forall b :: b in h ==> HoldsValid(s, s.owner, b))
    && (forall b :: b in s.cache && b !in h ==> s.cache[b].busy.None?)
  }

  /** Where some steps lead, if they lead to such a state. */
  ghost function Reached(g: Geometry, s: State, ts: seq<Step>, h: set<nat>): Option<State> {
    var r := After(g, s, ts);
    if r.Some? && Leads(g, s, ts, r.value) && Works(g, r.value, h) then r else None
  }

  /** The blocks whose buffers cannot be recycled. */
  function Kept(s: State, h: set<nat>): set<nat> {
    (set b | b in Pending(s.lh, s.phase)) + h
  }

  lemma SomeVictim(g: Geometry, s: State, h: set<nat>) returns (v: nat)
    requires Works(g, s, h) && |Kept(s, h)| < |s.cache|
    ensures v in s.cache && s.cache[v].busy.None? && !s.cache[v].dirty
  {
    if forall v :: v in s.cache ==> v in Kept(s, h) {
      SubsetFull(s.cache.Keys, Kept(s, h));
    }
    v :| v in s.cache && v !in Kept(s, h);
    assert BufOk(g, v, s.cache[v], Pending(s.lh, s.phase), s.ops);
  }

  /** One more step keeps the invariant. */
  lemma Take(g: Geometry, s0: State, ts: seq<Step>, s: State, step: Step, r: State) returns (ts': seq<Step>)
    requires Leads(g, s0, ts, s) && Inv(g, s) && |s.cache| <= g.nbuf
    requires Enabled(g, s, step) && r == Do(g, s, step) && !step.Crash? && !step.LogWrite?
    ensures Leads(g, s0, ts', r) && Inv(g, r) && |r.cache| <= g.nbuf
  {
    ts' := More(g, s0, ts, s, step, r);
    StepKeeps(g, s, step);
    StepFits(g, s, step, r);
  }

  lemma NoneHeld(g: Geometry, s0: State, ts: seq<Step>, r: State)
    requires Leads(g, s0, ts, r) && Inv(g, r) && |r.cache| <= g.nbuf && !r.phase.Running? && AllFree(r)
    ensures Reached(g, s0, ts, {}) == Some(r)
  {
  }

  ghost predicate AllFree(s: State) { forall b :: b in s.cache ==> s.cache[b].busy.None? }

  /** What bget leaves: the owner holds `b` too; it may have evicted a buffer nobody held. */
  ghost predicate Gotten(s: State, r: State, h: set<nat>, b: nat) {
    && r == s.(cache := r.cache) && Holds(r, s.owner, b)
    && (forall c :: c in r.cache && c != b ==> c in s.cache && r.cache[c] == s.cache[c])
    && (forall c :: c in h ==> c in r.cache)
  }

  lemma GetHit(g: Geometry, s: State, h: set<nat>, b: nat) returns (r: State)
    requires Works(g, s, h) && b !in h && b in s.cache
    ensures Enabled(g, s, Hit(s.owner, b)) && r == Do(g, s, Hit(s.owner, b)) && Gotten(s, r, h, b)
  {
    r := Do(g, s, Hit(s.owner, b));
  }

  lemma GetMiss(g: Geometry, s: State, h: set<nat>, b: nat) returns (v: Option<nat>, r: State)
    requires Works(g, s, h) && b !in h && b !in s.cache && b < g.nblocks && |Kept(s, h)| < g.nbuf
    ensures Enabled(g, s, Miss(s.owner, b, v)) && r == Do(g, s, Miss(s.owner, b, v)) && Gotten(s, r, h, b)
  {
    v := None;
    if |s.cache| >= g.nbuf {
      var u := SomeVictim(g, s, h);
      v := Some(u);
    }
    r := Do(g, s, Miss(s.owner, b, v));
  }

  /** bget */
  lemma Get(g: Geometry, s0: State, ts: seq<Step>, s: State, h: set<nat>, b: nat)
    returns (ts': seq<Step>, r: State)
    requires Reached(g, s0, ts, h) == Some(s) && b !in h && b < g.nblocks && |Kept(s, h)| < g.nbuf
    ensures Leads(g, s0, ts', r) && Gotten(s, r, h, b) && Inv(g, r) && |r.cache| <= g.nbuf
  {
    if b in s.cache {
      r := GetHit(g, s, h, b);
      ts' := Take(g, s0, ts, s, Hit(s.owner, b), r);
    } else {
      var v;
      v, r := GetMiss(g, s, h, b);
      ts' := Take(g, s0, ts, s, Miss(s.owner, b, v), r);
    }
  }

  lemma LoadIt(g: Geometry, s: State, m: State, h: set<nat>, b: nat) returns (r: State)
    requires Gotten(s, m, h, b) && s.ops == map[] && !m.cache[b].valid
    ensures Enabled(g, m, Load(s.owner, b)) && r == Do(g, m, Load(s.owner, b))
    ensures Gotten(s, r, h, b) && r.cache[b].valid
  {
    r := Do(g, m, Load(s.owner, b));
  }

  lemma GottenWorks(g: Geometry, s: State, r: State, h: set<nat>, b: nat)
    requires Works(g, s, h) && Gotten(s, r, h, b) && b !in h && r.cache[b].valid && Inv(g, r) && |r.cache| <= g.nbuf
    ensures Works(g, r, h + {b})
  {
  }

  /** bread */
  lemma Fetch(g: Geometry, s0: State, ts: seq<Step>, s: State, h: set<nat>, b: nat)
    returns (ts': seq<Step>, r: State)
    requires Reached(g, s0, ts, h) == Some(s) && b !in h && b < g.nblocks && |Kept(s, h)| < g.nbuf
    ensures Reached(g, s0, ts', h + {b}) == Some(r) && r == s.(cache := r.cache)
  {
    ts', r := Get(g, s0, ts, s, h, b);
    if !r.cache[b].valid {
      var m := r;
      r := LoadIt(g, s, m, h, b);
      ts' := Take(g, s0, ts', m, Load(s.owner, b), r);
    }
    GottenWorks(g, s, r, h, b);
  }

  /** The pinned blocks and `b`, which is one of them or else the only one. */
  lemma KeptOne(s: State, pinned: seq<nat>, b: nat, n: nat)
    requires pinned == Pending(s.lh, s.phase) && Distinct(pinned) && |pinned| < n
    requires b in pinned || (pinned == [] && n > 1)
    ensures |Kept(s, {b})| < n
  {
    var p := set c | c in pinned;
    ListSize(pinned, p);
    if b in pinned { assert Kept(s, {b}) == p; } else { assert Kept(s, {b}) == {b}; }
  }

  lemma KeptNone(s: State, pinned: seq<nat>, n: nat)
    requires pinned == Pending(s.lh, s.phase) && Distinct(pinned) && |pinned| < n
    ensures |Kept(s, {})| < n
  {
    var p := set c | c in pinned;
    ListSize(pinned, p);
    assert Kept(s, {}) == p;
  }

  /** Two blocks at once, the first of them pinned or no block pinned at all. */
  lemma FetchBoth(g: Geometry, s0: State, ts: seq<Step>, s: State, pinned: seq<nat>, a: nat, b: nat)
    returns (ts': seq<Step>, r: State)
    requires Reached(g, s0, ts, {}) == Some(s) && a < g.nblocks && b < g.nblocks && a != b
    requires pinned == Pending(s.lh, s.phase) && |pinned| < g.nbuf && Distinct(pinned)
    requires a in pinned || (pinned == [] && g.nbuf > 1)
    ensures Reached(g, s0, ts', {a} + {b}) == Some(r) && r == s.(cache := r.cache)
  {
    KeptNone(s, pinned, g.nbuf);
    ts', r := Fetch(g, s0, ts, s, {}, a);
    assert {} + {a} == {a};
    KeptOne(r, pinned, a, g.nbuf);
    ts', r := Fetch(g, s0, ts', r, {a}, b);
  }

  /** The header block. */
  lemma FetchHead(g: Geometry, s0: State, ts: seq<Step>, s: State, pinned: seq<nat>)
    returns (ts': seq<Step>, r: State)
    requires Reached(g, s0, ts, {}) == Some(s) && |s.lh| < g.words
    requires pinned == Pending(s.lh, s.phase) && |pinned| < g.nbuf && Distinct(pinned)
    ensures Reached(g, s0, ts', {g.logStart}) == Some(r) && r == s.(cache := r.cache) && HoldsHead(g, r)
  {
    KeptNone(s, pinned, g.nbuf);
    ts', r := Fetch(g, s0, ts, s, {}, g.logStart);
    assert {} + {g.logStart} == {g.logStart};
    HeadBuf(g, r);
  }

  /** The owner holds the two blocks it copies between, and nobody holds another. */
  ghost predicate HoldsTwo(s: State, a: nat, b: nat) {
    && HoldsValid(s, s.owner, a) && HoldsValid(s, s.owner, b)
    && forall c :: c in s.cache && c != a && c != b ==> s.cache[c].busy.None?
  }

  lemma WorksTwo(g: Geometry, s: State, a: nat, b: nat)
    requires Works(g, s, {a} + {b})
    ensures HoldsTwo(s, a, b)
  {
    assert a in {a} + {b} && b in {a} + {b};
  }

  // ----- a commit -----

  lemma CopyOne(g: Geometry, m: State, t: nat) returns (r: State)
    requires m.phase == CopyLog(t) && t < |m.lh| && HoldsTwo(m, m.lh[t], g.logStart + 1 + t)
    ensures Enabled(g, m, CopyToLog) && r == Do(g, m, CopyToLog) && AllFree(r)
    ensures r.lh == m.lh && r.phase == AfterCopyLog(t, |m.lh|)
  {
    r := Do(g, m, CopyToLog);
  }

  /** The blocks of a round are on the disk and differ. */
  lemma RoundBlocks(g: Geometry, s: State, t: nat, a: nat, b: nat)
    requires Inv(g, s) && t < |s.lh| < g.nlog && a == s.lh[t] && b == g.logStart + 1 + t
    ensures a < g.nblocks && b < g.nblocks && a != b && Distinct(s.lh)
  {
    assert g.Home(a) && g.InLog(b);
  }

  /** write_log */
  lemma {:induction false} CopyLogs(g: Geometry, s0: State, ts: seq<Step>, s: State, t: nat)
    returns (ts': seq<Step>, r: State)
    requires Reached(g, s0, ts, {}) == Some(s) && s.phase == CopyLog(t) && t < |s.lh| < g.nbuf && |s.lh| < g.nlog
    ensures Reached(g, s0, ts', {}) == Some(r) && r.phase == SealHead && r.lh == s.lh
    decreases |s.lh| - t
  {
    ts', r := CopyRound(g, s0, ts, s, t);
    if t + 1 < |s.lh| { ts', r := CopyLogs(g, s0, ts', r, t + 1); }
  }

  lemma CopyRound(g: Geometry, s0: State, ts: seq<Step>, s: State, t: nat) returns (ts': seq<Step>, r: State)
    requires Reached(g, s0, ts, {}) == Some(s) && s.phase == CopyLog(t) && t < |s.lh| < g.nbuf && |s.lh| < g.nlog
    ensures Reached(g, s0, ts', {}) == Some(r) && r.phase == AfterCopyLog(t, |s.lh|) && r.lh == s.lh
  {
    var a, b := s.lh[t], g.logStart + 1 + t;
    RoundBlocks(g, s, t, a, b);
    var m;
    ts', m := FetchBoth(g, s0, ts, s, s.lh, a, b);
    ts', r := CopyRoundEnds(g, s0, ts', m, t, a, b);
  }

  lemma CopyRoundEnds(g: Geometry, s0: State, ts: seq<Step>, m: State, t: nat, a: nat, b: nat)
    returns (ts': seq<Step>, r: State)
    requires Reached(g, s0, ts, {a} + {b}) == Some(m)
    requires m.phase == CopyLog(t) && t < |m.lh| && a == m.lh[t] && b == g.logStart + 1 + t
    ensures Reached(g, s0, ts', {}) == Some(r) && r.phase == AfterCopyLog(t, |m.lh|) && r.lh == m.lh
  {
    WorksTwo(g, m, a, b);
    r := CopyOne(g, m, t);
    ts' := Take(g, s0, ts, m, CopyToLog, r);
    NoneHeld(g, s0, ts', r);
  }

  lemma InstallOne(g: Geometry, m: State, t: nat) returns (r: State)
    requires m.phase == CopyHome(t) && t < |m.lh| && HoldsTwo(m, m.lh[t], g.logStart + 1 + t)
    ensures Enabled(g, m, CopyToHome) && r == Do(g, m, CopyToHome) && AllFree(r)
    ensures r.lh == m.lh && r.phase == AfterCopyHome(t, |m.lh|)
  {
    r := Do(g, m, CopyToHome);
  }

  lemma TailDistinct(l: seq<nat>, t: nat)
    requires Distinct(l) && t < |l|
    ensures Distinct(l[t..]) && l[t] in l[t..]
  {
    assert l[t..][0] == l[t];
  }

  /** install_trans */
  lemma {:induction false} Installs(g: Geometry, s0: State, ts: seq<Step>, s: State, t: nat)
    returns (ts': seq<Step>, r: State)
    requires Reached(g, s0, ts, {}) == Some(s) && s.phase == CopyHome(t) && t < |s.lh| < g.nbuf && |s.lh| < g.nlog
    ensures Reached(g, s0, ts', {}) == Some(r) && r.phase == ClearHead && r.lh == s.lh
    decreases |s.lh| - t
  {
    ts', r := InstallRound(g, s0, ts, s, t);
    if t + 1 < |s.lh| { ts', r := Installs(g, s0, ts', r, t + 1); }
  }

  lemma InstallRound(g: Geometry, s0: State, ts: seq<Step>, s: State, t: nat) returns (ts': seq<Step>, r: State)
    requires Reached(g, s0, ts, {}) == Some(s) && s.phase == CopyHome(t) && t < |s.lh| < g.nbuf && |s.lh| < g.nlog
    ensures Reached(g, s0, ts', {}) == Some(r) && r.phase == AfterCopyHome(t, |s.lh|) && r.lh == s.lh
  {
    var a, b := s.lh[t], g.logStart + 1 + t;
    RoundBlocks(g, s, t, a, b);
    TailDistinct(s.lh, t);
    var m;
    ts', m := FetchBoth(g, s0, ts, s, s.lh[t..], a, b);
    ts', r := InstallRoundEnds(g, s0, ts', m, t, a, b);
  }

  lemma InstallRoundEnds(g: Geometry, s0: State, ts: seq<Step>, m: State, t: nat, a: nat, b: nat)
    returns (ts': seq<Step>, r: State)
    requires Reached(g, s0, ts, {a} + {b}) == Some(m)
    requires m.phase == CopyHome(t) && t < |m.lh| && a == m.lh[t] && b == g.logStart + 1 + t
    ensures Reached(g, s0, ts', {}) == Some(r) && r.phase == AfterCopyHome(t, |m.lh|) && r.lh == m.lh
  {
    WorksTwo(g, m, a, b);
    r := InstallOne(g, m, t);
    ts' := Take(g, s0, ts, m, CopyToHome, r);
    NoneHeld(g, s0, ts', r);
  }

  lemma HeadDone(g: Geometry, m: State, step: Step, r: State)
    requires HoldsHead(g, m) && (forall b :: b in m.cache && b != g.logStart ==> m.cache[b].busy.None?)
    requires (step.Seal? || step.Clear? || step.BootErase?) && Enabled(g, m, step) && r == Do(g, m, step)
    ensures AllFree(r)
    ensures step.Seal? ==> r.phase == CopyHome(0) && r.lh == m.lh
    ensures step.Clear? ==> r.phase == Closing
    ensures step.BootErase? ==> r.phase == Running && r.ops == m.ops
  {
  }

  /** The first write_head of a commit, and the second. */
  lemma Seals(g: Geometry, s0: State, ts: seq<Step>, s: State) returns (ts': seq<Step>, r: State)
    requires Reached(g, s0, ts, {}) == Some(s) && s.phase == SealHead && |s.lh| < g.nbuf && |s.lh| < g.words
    ensures Reached(g, s0, ts', {}) == Some(r) && r.phase == CopyHome(0) && r.lh == s.lh
  {
    var m;
    ts', m := FetchHead(g, s0, ts, s, s.lh);
    r := Do(g, m, Seal);
    ts' := Take(g, s0, ts', m, Seal, r);
    HeadDone(g, m, Seal, r);
    NoneHeld(g, s0, ts', r);
  }

  lemma Clears(g: Geometry, s0: State, ts: seq<Step>, s: State) returns (ts': seq<Step>, r: State)
    requires Reached(g, s0, ts, {}) == Some(s) && s.phase == ClearHead && 0 < g.nbuf && |s.lh| < g.words
    ensures Reached(g, s0, ts', {}) == Some(r) && r.phase == Closing
  {
    var m;
    ts', m := FetchHead(g, s0, ts, s, []);
    r := Do(g, m, Clear);
    ts' := Take(g, s0, ts', m, Clear, r);
    HeadDone(g, m, Clear, r);
    NoneHeld(g, s0, ts', r);
  }

  lemma Closes(g: Geometry, s: State) returns (r: State)
    requires Inv(g, s) && (s.phase == Closing || (s.phase == CopyLog(0) && s.lh == []))
    ensures Enabled(g, s, Close) && r == Do(g, s, Close) && r.phase.Running? && r.ops == map[]
  {
    r := Do(g, s, Close);
  }

  /** The last end_op has been called: nobody holds a buffer, and the commit is about to start. */
  ghost predicate Starts(g: Geometry, s: State) {
    Works(g, s, {}) && s.phase == CopyLog(0)
  }

  /** Everything logged is committed and in place. */
  ghost predicate Committed(g: Geometry, s: State, r: State) {
    && r.phase.Running? && r.ops == map[] && r.lh == [] && r.cur == [] && r.done == s.done + s.cur
    && SameHome(g, r.disk, Latest(s))
  }

  lemma Settles(g: Geometry, s: State, ts: seq<Step>, r: State)
    requires Leads(g, s, ts, r) && Inv(g, r) && r.phase.Running? && r.ops == map[]
    ensures Committed(g, s, r)
  {
    LeadsKeeps(g, s, ts, r);
    assert |r.cur| == 0;
    assert r.done + r.cur == r.done;
  }

  /** With a buffer to spare, and a list that the header has words for, the commit goes through. */
  lemma CommitCompletes(g: Geometry, s: State) returns (ts: seq<Step>, r: State)
    requires Starts(g, s) && (s.lh == [] || (|s.lh| < g.nbuf && |s.lh| < g.words))
    ensures Leads(g, s, ts, r) && Committed(g, s, r)
  {
    ts, r := [], s;
    if s.lh != [] {
      ts, r := CopyLogs(g, s, ts, r, 0);
      ts, r := Seals(g, s, ts, r);
      ts, r := Installs(g, s, ts, r, 0);
      ts, r := Clears(g, s, ts, r);
    }
    var m := r;
    r := Closes(g, m);
    ts := Take(g, s, ts, m, Close, r);
    Settles(g, s, ts, r);
  }

  // ----- and otherwise it never does -----

  /** The list takes all buffers, or more words than the header has. */
  ghost predicate Stuck(g: Geometry, s: State) {
    && Inv(g, s) && |s.cache| <= g.nbuf && s.lh != []
    && ((|s.lh| >= g.nbuf && s.phase == CopyLog(0)) || (|s.lh| >= g.words && (s.phase.CopyLog? || s.phase.SealHead?)))
  }

  lemma StuckStep(g: Geometry, s: State, step: Step, r: State)
    requires Stuck(g, s) && Enabled(g, s, step) && r == Do(g, s, step) && !step.Crash? && !step.LogWrite?
    ensures Stuck(g, r)
  {
    StepKeeps(g, s, step);
    StepFits(g, s, step, r);
    StuckPhase(g, s, step, r);
  }

  lemma StuckPhase(g: Geometry, s: State, step: Step, r: State)
    requires Stuck(g, s) && Enabled(g, s, step) && r == Do(g, s, step) && !step.Crash? && !step.LogWrite?
    ensures r.lh == s.lh
    ensures (|s.lh| >= g.nbuf && r.phase == CopyLog(0))
      || (|s.lh| >= g.words && (r.phase.CopyLog? || r.phase.SealHead?))
  {
    if step.CopyToLog? {
      if |s.lh| >= g.nbuf {
        CopyFits(g, s);
        Jammed(g, s, g.logStart + 1 + s.phase.tail);
        assert g.InLog(g.logStart + 1 + s.phase.tail);
      }
    } else if step.Seal? {
      HeadBuf(g, s);
    }
  }

  lemma {:induction false} StaysStuck(g: Geometry, s: State, ts: seq<Step>, r: State)
    requires Stuck(g, s) && Leads(g, s, ts, r)
    ensures Stuck(g, r)
    decreases |ts|
  {
    if ts != [] {
      var before, m, step := LastOf(g, s, ts, r);
      StaysStuck(g, s, before, m);
      StuckStep(g, m, step, r);
    }
  }

  /** The exact condition under which a commit can be finished without a crash. */
  lemma CommitCompletesIff(g: Geometry, s: State)
    requires Starts(g, s)
    ensures (exists ts: seq<Step>, r: State :: Leads(g, s, ts, r) && Committed(g, s, r)) <==>
      s.lh == [] || (|s.lh| < g.nbuf && |s.lh| < g.words)
  {
    if s.lh == [] || (|s.lh| < g.nbuf && |s.lh| < g.words) {
      var ts, r := CommitCompletes(g, s);
    } else {
      forall ts: seq<Step>, r: State | Leads(g, s, ts, r) ensures !Committed(g, s, r) {
        StaysStuck(g, s, ts, r);
      }
    }
  }

  // ----- recovery -----

  lemma BootOne(g: Geometry, m: State, t: nat) returns (r: State)
    requires m.phase == BootCopy(t) && t < |m.lh| && HoldsTwo(m, m.lh[t], g.logStart + 1 + t)
    ensures Enabled(g, m, BootToHome) && r == Do(g, m, BootToHome) && AllFree(r)
    ensures r.lh == m.lh && r.phase == BootFrom(t + 1, |m.lh|)
  {
    r := Do(g, m, BootToHome);
  }

  lemma BootRound(g: Geometry, s0: State, ts: seq<Step>, s: State, t: nat) returns (ts': seq<Step>, r: State)
    requires Reached(g, s0, ts, {}) == Some(s) && s.phase == BootCopy(t) && t < |s.lh| < g.nlog && 1 < g.nbuf
    ensures Reached(g, s0, ts', {}) == Some(r) && r.phase == BootFrom(t + 1, |s.lh|) && r.lh == s.lh
  {
    var a, b := s.lh[t], g.logStart + 1 + t;
    RoundBlocks(g, s, t, a, b);
    var m;
    ts', m := FetchBoth(g, s0, ts, s, [], a, b);
    ts', r := BootRoundEnds(g, s0, ts', m, t, a, b);
  }

  lemma BootRoundEnds(g: Geometry, s0: State, ts: seq<Step>, m: State, t: nat, a: nat, b: nat)
    returns (ts': seq<Step>, r: State)
    requires Reached(g, s0, ts, {a} + {b}) == Some(m)
    requires m.phase == BootCopy(t) && t < |m.lh| && a == m.lh[t] && b == g.logStart + 1 + t
    ensures Reached(g, s0, ts', {}) == Some(r) && r.phase == BootFrom(t + 1, |m.lh|) && r.lh == m.lh
  {
    WorksTwo(g, m, a, b);
    r := BootOne(g, m, t);
    ts' := Take(g, s0, ts, m, BootToHome, r);
    NoneHeld(g, s0, ts', r);
  }

  lemma {:induction false} BootCopies(g: Geometry, s0: State, ts: seq<Step>, s: State, t: nat)
    returns (ts': seq<Step>, r: State)
    requires Reached(g, s0, ts, {}) == Some(s) && s.phase == BootCopy(t) && t < |s.lh| < g.nlog && 1 < g.nbuf
    ensures Reached(g, s0, ts', {}) == Some(r) && r.phase == BootClear && r.lh == s.lh
    decreases |s.lh| - t
  {
    ts', r := BootRound(g, s0, ts, s, t);
    if t + 1 < |s.lh| { ts', r := BootCopies(g, s0, ts', r, t + 1); }
  }

  lemma BootReads(g: Geometry, s0: State, ts: seq<Step>, s: State) returns (ts': seq<Step>, r: State)
    requires Reached(g, s0, ts, {}) == Some(s) && s.phase == BootRead && 0 < g.nbuf
    ensures Reached(g, s0, ts', {}) == Some(r) && r.phase == BootFrom(0, |r.lh|)
  {
    var m;
    ts', m := FetchHead(g, s0, ts, s, []);
    r := ReadsHead(g, m);
    ts' := Take(g, s0, ts', m, BootHead, r);
    NoneHeld(g, s0, ts', r);
  }

  lemma ReadsHead(g: Geometry, m: State) returns (r: State)
    requires HoldsHead(g, m) && m.phase == BootRead
    requires forall b :: b in m.cache && b != g.logStart ==> m.cache[b].busy.None?
    ensures Enabled(g, m, BootHead) && r == Do(g, m, BootHead) && AllFree(r) && r.phase == BootFrom(0, |r.lh|)
  {
    r := Do(g, m, BootHead);
  }

  lemma BootClears(g: Geometry, s0: State, ts: seq<Step>, s: State) returns (ts': seq<Step>, r: State)
    requires Reached(g, s0, ts, {}) == Some(s) && s.phase == BootClear && 0 < g.nbuf && |s.lh| < g.words
    ensures Leads(g, s0, ts', r) && Inv(g, r) && r.phase.Running? && r.ops == map[]
  {
    var m;
    ts', m := FetchHead(g, s0, ts, s, []);
    r := Do(g, m, BootErase);
    ts' := Take(g, s0, ts', m, BootErase, r);
    HeadDone(g, m, BootErase, r);
  }

  /** The header lists fewer blocks than it has words, and they fit the log. */
  lemma BootList(g: Geometry, s: State)
    requires Inv(g, s) && (s.phase.BootCopy? || s.phase.BootClear?)
    ensures |s.lh| < g.words && |s.lh| < g.nlog
  {
    assert |s.disk[g.logStart]| == g.words;
  }

  /** After a crash two buffers are enough for recovery to go through: the disk then holds the committed image. */
  lemma RecoveryCompletes(g: Geometry, s: State) returns (ts: seq<Step>, r: State)
    requires Works(g, s, {}) && s.phase == BootRead && 1 < g.nbuf
    ensures Leads(g, s, ts, r) && Committed(g, s, r)
  {
    ts, r := BootReads(g, s, [], s);
    BootList(g, r);
    if r.lh != [] { ts, r := BootCopies(g, s, ts, r, 0); }
    ts, r := BootClears(g, s, ts, r);
    Settles(g, s, ts, r);
  }
}
