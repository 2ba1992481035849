/**
 What the parser records: the spans of a parsed command are exactly the maximal words of the line, so
 overwriting the character after each of them with NUL cuts every word off exactly and touches no other.
 */
module ShellWords {
  import opened ShellParser

  // ----- words of a line -----

  ghost predicate AllWord(b: string, q: nat, e: nat)
    requires e <= |b|
  {
    forall k :: q <= k < e ==> IsWordChar(b[k])
  }

  /** A longest run of word characters. */
  ghost predicate Maximal(b: string, s: Span) {
    && s.q < s.e <= |b| && AllWord(b, s.q, s.e)
    && (s.q > 0 ==> !IsWordChar(b[s.q - 1]))
    && (s.e < |b| ==> !IsWordChar(b[s.e]))
  }

  ghost predicate WordIn(b: string, i: nat, p: nat, s: Span) {
    i <= s.q && s.e <= p && Maximal(b, s)
  }

  /** No word runs across `k`. */
  ghost predicate Boundary(b: string, k: nat) {
    k <= |b| && (0 < k < |b| ==> !IsWordChar(b[k - 1]) || !IsWordChar(b[k]))
  }

  lemma WordChar(b: string, s: Span, k: int)
    ensures Maximal(b, s) && s.q <= k < s.e ==> IsWordChar(b[k])
  {
  }

  lemma WordsSplit(b: string, i: nat, k: nat, p: nat, s: Span)
    requires i <= k <= p && Boundary(b, k)
    ensures WordIn(b, i, p, s) <==> WordIn(b, i, k, s) || WordIn(b, k, p, s)
  {
    WordChar(b, s, k - 1);
    WordChar(b, s, k);
  }

  /** Blanks hold no word. */
  lemma {:induction false} SkipWords(b: string, i: nat, s: Span)
    requires Boundary(b, i)
    ensures Boundary(b, SkipWs(b, i)) && !WordIn(b, i, SkipWs(b, i), s)
    decreases |b| - i
  {
    if i < |b| && IsWs(b[i]) {
      SkipWords(b, i + 1, s);
      WordsSplit(b, i, i + 1, SkipWs(b, i), s);
      WordChar(b, s, i);
    }
  }

  /** A token holds one word, itself, or none. */
  lemma TokenWords(b: string, i: nat, s: Span)
    requires Boundary(b, i)
    ensures var t := GetTok(b, i);
      && Boundary(b, t.next)
      && (WordIn(b, i, t.next, s) <==> t.tok.Word? && s == Span(t.q, t.e))
  {
    var t := GetTok(b, i);
    SkipWords(b, i, s);
    if !t.tok.End? {
      TokenAlone(b, t, s);
      SkipWords(b, t.e, s);
      WordsSplit(b, i, t.q, t.next, s);
      WordsSplit(b, t.q, t.e, t.next, s);
    }
  }

  lemma TokenAlone(b: string, t: Token, s: Span)
    requires t.q < t.e <= |b| && Boundary(b, t.q)
    requires t.tok.Word? ==> IsWordChar(b[t.q]) && t.e == WordEnd(b, t.q)
    requires !t.tok.Word? ==> forall k :: t.q <= k < t.e ==> !IsWordChar(b[k])
    ensures Boundary(b, t.e)
    ensures WordIn(b, t.q, t.e, s) <==> t.tok.Word? && s == Span(t.q, t.e)
  {
    WordChar(b, s, s.q);
    if t.tok.Word? {
      assert AllWord(b, t.q, t.e);
    }
  }

  // ----- the spans of a command -----

  ghost predicate Names(rs: seq<Redirect>, s: Span) {
    exists k :: 0 <= k < |rs| && rs[k].file == s
  }

  ghost predicate Has(c: Cmd, s: Span) {
    match c
    case Exec(argv) => s in argv
    case Redir(d, f, fd) => s == f || Has(d, s)
    case Pipe(l, r) => Has(l, s) || Has(r, s)
    case List(l, r) => Has(l, s) || Has(r, s)
    case Back(d) => Has(d, s)
  }

  lemma NamesCons(r: Redirect, rs: seq<Redirect>, s: Span)
    ensures Names([r] + rs, s) <==> r.file == s || Names(rs, s)
  {
    var all := [r] + rs;
    if Names(rs, s) {
      var k :| 0 <= k < |rs| && rs[k].file == s;
      assert all[k + 1].file == s;
    }
    if r.file == s { assert all[0].file == s; }
  }

  lemma NamesConcat(xs: seq<Redirect>, ys: seq<Redirect>, s: Span)
    ensures Names(xs + ys, s) <==> Names(xs, s) || Names(ys, s)
  {
    var all := xs + ys;
    if Names(xs, s) {
      var k :| 0 <= k < |xs| && xs[k].file == s;
      assert all[k].file == s;
    }
    if Names(ys, s) {
      var k :| 0 <= k < |ys| && ys[k].file == s;
      assert all[|xs| + k].file == s;
    }
  }

  lemma {:induction false} WrapHas(c: Cmd, rs: seq<Redirect>, s: Span)
    ensures Has(Wrap(c, rs), s) <==> Has(c, s) || Names(rs, s)
    decreases |rs|
  {
    if rs != [] {
      WrapHas(Redir(c, rs[0].file, rs[0].fd), rs[1..], s);
      assert rs == [rs[0]] + rs[1..];
      NamesCons(rs[0], rs[1..], s);
    }
  }

  // ----- every parsing function records the words it passes -----

  lemma {:induction false} RedirsWords(b: string, i: nat, s: Span)
    requires Boundary(b, i) && Redirs(b, i).Ok?
    ensures var r := Redirs(b, i); Boundary(b, r.pos) && (Names(r.value, s) <==> WordIn(b, i, r.pos, s))
    decreases |b| - i
  {
    var r := Redirs(b, i);
    if !IsRedirect(Look(b, i)) {
      SkipWords(b, i, s);
    } else {
      var op := GetTok(b, i);
      var file := GetTok(b, op.next);
      TokenWords(b, i, s);
      TokenWords(b, op.next, s);
      RedirsWords(b, file.next, s);
      WordsSplit(b, i, op.next, r.pos, s);
      WordsSplit(b, op.next, file.next, r.pos, s);
      NamesCons(r.value[0], Redirs(b, file.next).value, s);
    }
  }

  lemma {:induction false} ArgsWords(b: string, i: nat, argv: seq<Span>, rs: seq<Redirect>, s: Span)
    requires Boundary(b, i) && Args(b, i, argv, rs).Ok?
    ensures var r := Args(b, i, argv, rs);
      && Boundary(b, r.pos)
      && (Has(r.value, s) <==> s in argv || Names(rs, s) || WordIn(b, i, r.pos, s))
    decreases |b| - i
  {
    var r := Args(b, i, argv, rs);
    var t := GetTok(b, i);
    if EndsArgs(Look(b, i)) {
      SkipWords(b, i, s);
      WrapHas(Exec(argv), rs, s);
    } else if t.tok.End? {
      TokenWords(b, i, s);
      WrapHas(Exec(argv), rs, s);
    } else {
      var more := Redirs(b, t.next);
      TokenWords(b, i, s);
      RedirsWords(b, t.next, s);
      ArgsWords(b, more.pos, argv + [Span(t.q, t.e)], rs + more.value, s);
      NamesConcat(rs, more.value, s);
      WordsSplit(b, i, t.next, r.pos, s);
      WordsSplit(b, t.next, more.pos, r.pos, s);
    }
  }

  lemma {:induction false} BacksWords(b: string, c: Cmd, i: nat, s: Span)
    requires Boundary(b, i)
    ensures var r := Backs(b, c, i); Boundary(b, r.1) && !WordIn(b, i, r.1, s) && (Has(r.0, s) <==> Has(c, s))
    decreases |b| - i
  {
    if Look(b, i) == '&' {
      var next := GetTok(b, i).next;
      TokenWords(b, i, s);
      BacksWords(b, Back(c), next, s);
      WordsSplit(b, i, next, Backs(b, c, i).1, s);
    } else {
      SkipWords(b, i, s);
    }
  }

  lemma {:induction false} LineWords(b: string, i: nat, s: Span)
    requires Boundary(b, i) && ParseLine(b, i).Ok?
    ensures var r := ParseLine(b, i); Boundary(b, r.pos) && (Has(r.value, s) <==> WordIn(b, i, r.pos, s))
    decreases |b| - i, 3
  {
    var r := ParseLine(b, i);
    var head := ParsePipe(b, i);
    PipeWords(b, i, s);
    var (c, p) := Backs(b, head.value, head.pos);
    BacksWords(b, head.value, head.pos, s);
    WordsSplit(b, i, head.pos, p, s);
    if Look(b, p) == ';' {
      var next := GetTok(b, p).next;
      TokenWords(b, p, s);
      LineWords(b, next, s);
      WordsSplit(b, i, p, r.pos, s);
      WordsSplit(b, p, next, r.pos, s);
    }
  }

  lemma {:induction false} PipeWords(b: string, i: nat, s: Span)
    requires Boundary(b, i) && ParsePipe(b, i).Ok?
    ensures var r := ParsePipe(b, i); Boundary(b, r.pos) && (Has(r.value, s) <==> WordIn(b, i, r.pos, s))
    decreases |b| - i, 2
  {
    var r := ParsePipe(b, i);
    var p := ParseExec(b, i).pos;
    ExecWords(b, i, s);
    if Look(b, p) == '|' {
      var next := GetTok(b, p).next;
      TokenWords(b, p, s);
      PipeWords(b, next, s);
      WordsSplit(b, i, p, r.pos, s);
      WordsSplit(b, p, next, r.pos, s);
    } else {
      SkipWords(b, p, s);
      WordsSplit(b, i, p, r.pos, s);
    }
  }

  lemma {:induction false} ExecWords(b: string, i: nat, s: Span)
    requires Boundary(b, i) && ParseExec(b, i).Ok?
    ensures var r := ParseExec(b, i); Boundary(b, r.pos) && (Has(r.value, s) <==> WordIn(b, i, r.pos, s))
    decreases |b| - i, 1
  {
    if Look(b, i) == '(' {
      BlockWords(b, i, s);
    } else {
      var rs := Redirs(b, i);
      RedirsWords(b, i, s);
      ArgsWords(b, rs.pos, [], rs.value, s);
      WordsSplit(b, i, rs.pos, ParseExec(b, i).pos, s);
    }
  }

  lemma {:induction false} BlockWords(b: string, i: nat, s: Span)
    requires Boundary(b, i) && Look(b, i) == '(' && ParseBlock(b, i).Ok?
    ensures var r := ParseBlock(b, i); Boundary(b, r.pos) && (Has(r.value, s) <==> WordIn(b, i, r.pos, s))
    decreases |b| - i, 0
  {
    var r := ParseBlock(b, i);
    var open := GetTok(b, i).next;
    TokenWords(b, i, s);
    var line := ParseLine(b, open);
    LineWords(b, open, s);
    var close := GetTok(b, line.pos).next;
    TokenWords(b, line.pos, s);
    var rs := Redirs(b, close);
    RedirsWords(b, close, s);
    WrapHas(line.value, rs.value, s);
    WordsSplit(b, i, open, r.pos, s);
    WordsSplit(b, open, line.pos, r.pos, s);
    WordsSplit(b, line.pos, close, r.pos, s);
  }

  /** A parsed line holds each of its words, and nothing else. */
  lemma WordsExact(b: string, s: Span)
    requires ParseCmd(b).Ok?
    ensures Has(ParseCmd(b).value, s) <==> Maximal(b, s)
  {
    var p := ParseLine(b, 0).pos;
    LineWords(b, 0, s);
    SkipWords(b, p, s);
    WordsSplit(b, 0, p, |b|, s);
  }

  // ----- nulterminate -----

  /** The buffer after nulterminate: NUL at the end of each span. */
  function Terminated(a: seq<char>, c: Cmd): (z: seq<char>)
    ensures |z| == |a|
    decreases c
  {
    match c
    case Exec(argv) => CutAll(a, argv)
    case Redir(d, f, fd) => Cut(Terminated(a, d), f)
    case Pipe(l, r) => Terminated(Terminated(a, l), r)
    case List(l, r) => Terminated(Terminated(a, l), r)
    case Back(d) => Terminated(a, d)
  }

  function Cut(a: seq<char>, s: Span): seq<char> {
    if s.e < |a| then a[s.e := '\0'] else a
  }

  function CutAll(a: seq<char>, argv: seq<Span>): (z: seq<char>)
    ensures |z| == |a|
  {
    if argv == [] then a else Cut(CutAll(a, argv[..|argv| - 1]), argv[|argv| - 1])
  }

  /** `k` is where a span of the command ends. */
  ghost predicate EndsAt(c: Cmd, k: nat) {
    exists s: Span :: Has(c, s) && s.e == k
  }

  lemma {:induction false} CutAllAt(a: seq<char>, argv: seq<Span>, k: nat)
    requires k < |a|
    ensures CutAll(a, argv)[k] == if exists s :: s in argv && s.e == k then '\0' else a[k]
  {
    if argv != [] {
      var front, last := argv[..|argv| - 1], argv[|argv| - 1];
      CutAllAt(a, front, k);
      assert argv == front + [last];
      assert last in argv;
    }
  }

  lemma {:induction false} TerminatedAt(a: seq<char>, c: Cmd, k: nat)
    requires k < |a|
    ensures Terminated(a, c)[k] == if EndsAt(c, k) then '\0' else a[k]
    decreases c
  {
    match c
    case Exec(argv) =>
      CutAllAt(a, argv, k);
      ExecEnds(argv, k);
    case Redir(d, f, fd) =>
      TerminatedAt(a, d, k);
      RedirEnds(d, f, fd, k);
    case Pipe(l, r) =>
      TerminatedAt(a, l, k);
      TerminatedAt(Terminated(a, l), r, k);
      BothEnds(l, r, k);
    case List(l, r) =>
      TerminatedAt(a, l, k);
      TerminatedAt(Terminated(a, l), r, k);
      BothEnds(l, r, k);
    case Back(d) =>
      TerminatedAt(a, d, k);
      BackEnds(d, k);
  }

  lemma ExecEnds(argv: seq<Span>, k: nat)
    ensures EndsAt(Exec(argv), k) <==> exists s :: s in argv && s.e == k
  {
    if s :| s in argv && s.e == k { assert Has(Exec(argv), s); }
  }

  lemma RedirEnds(d: Cmd, f: Span, fd: nat, k: nat)
    ensures EndsAt(Redir(d, f, fd), k) <==> EndsAt(d, k) || f.e == k
  {
    var c := Redir(d, f, fd);
    if f.e == k { assert Has(c, f); }
    if EndsAt(d, k) { var s :| Has(d, s) && s.e == k; assert Has(c, s); }
  }

  lemma BothEnds(l: Cmd, r: Cmd, k: nat)
    ensures EndsAt(Pipe(l, r), k) <==> EndsAt(l, k) || EndsAt(r, k)
    ensures EndsAt(List(l, r), k) <==> EndsAt(l, k) || EndsAt(r, k)
  {
    if EndsAt(l, k) { var s :| Has(l, s) && s.e == k; assert Has(Pipe(l, r), s) && Has(List(l, r), s); }
    if EndsAt(r, k) { var s :| Has(r, s) && s.e == k; assert Has(Pipe(l, r), s) && Has(List(l, r), s); }
  }

  lemma BackEnds(d: Cmd, k: nat)
    ensures EndsAt(Back(d), k) <==> EndsAt(d, k)
  {
    if EndsAt(d, k) { var s :| Has(d, s) && s.e == k; assert Has(Back(d), s); }
  }

  /** The C string that starts at `q`: up to the first NUL, or to the end of memory. */
  function CString(a: seq<char>, q: nat): seq<char>
    requires q <= |a|
    decreases |a| - q
  {
    if q == |a| || a[q] == '\0' then [] else [a[q]] + CString(a, q + 1)
  }

  lemma {:induction false} CStringUpTo(a: seq<char>, q: nat, e: nat)
    requires q <= e < |a| && a[e] == '\0' && forall k :: q <= k < e ==> a[k] != '\0'
    ensures CString(a, q) == a[q..e]
    decreases e - q
  {
    if q < e {
      CStringUpTo(a, q + 1, e);
      assert a[q..e] == [a[q]] + a[q + 1..e];
    }
  }

  /** No end of a recorded span lies inside a recorded word. */
  lemma EndsOutside(b: string, k: nat, s: Span)
    requires ParseCmd(b).Ok? && Has(ParseCmd(b).value, s) && s.q <= k < s.e
    ensures !EndsAt(ParseCmd(b).value, k)
  {
    var c := ParseCmd(b).value;
    WordsExact(b, s);
    WordChar(b, s, k);
    if EndsAt(c, k) {
      var t :| Has(c, t) && t.e == k;
      WordsExact(b, t);
    }
  }

  /** After nulterminate every argument and file name reads back as exactly its token. */
  lemma TokensReadBack(b: string, s: Span)
    requires ParseCmd(b).Ok? && Has(ParseCmd(b).value, s) && '\0' !in b
    ensures s.q < s.e <= |b| && CString(Terminated(b + ['\0'], ParseCmd(b).value), s.q) == b[s.q..s.e]
  {
    var c := ParseCmd(b).value;
    var a := b + ['\0'];
    var z := Terminated(a, c);
    WordsExact(b, s);
    TerminatedAt(a, c, s.e);
    assert EndsAt(c, s.e);
    forall k | s.q <= k < s.e ensures z[k] == b[k] && b[k] != '\0' {
      TerminatedAt(a, c, k);
      EndsOutside(b, k, s);
    }
    CStringUpTo(z, s.q, s.e);
    assert z[s.q..s.e] == b[s.q..s.e];
  }
}
