/**
 The parser accepts nothing but commands: whatever it reads without failing can be taken apart into a
 command as it is written. With ShellSyntax this says exactly which lines it accepts.
 */
module ShellAccepts {
  import opened ShellParser
  import opened ShellSyntax
  import opened Options

  // ----- blanks, signs and words found in the line -----

  lemma {:induction false} BlankUpTo(b: string, i: nat, k: nat)
    requires i <= |b| && i <= k < SkipWs(b, i)
    ensures IsWs(b[k])
    decreases k - i
  {
    if i < k { BlankUpTo(b, i + 1, k); }
  }

  lemma GapHere(b: string, i: nat, q: nat)
    requires i <= |b| && q == SkipWs(b, i)
    ensures Gap(b, i, b[i..q]) == Some(q)
  {
    forall k | 0 <= k < |b[i..q]| ensures IsWs(b[i..q][k]) { BlankUpTo(b, i, i + k); }
  }

  lemma SignHere(b: string, i: nat, c: char) returns (gap: string, p: nat)
    requires i <= |b| && Look(b, i) == c && IsSym(c) && c != '>'
    ensures Sign(b, i, gap, c) == Some(p) && GetTok(b, i).next == SkipWs(b, p)
  {
    var q := SkipWs(b, i);
    TokenIs(b, i, q);
    GapHere(b, i, q);
    gap, p := b[i..q], q + 1;
  }

  lemma NameHere(b: string, q: nat, e: nat)
    requires q < |b| && IsWordChar(b[q]) && e == WordEnd(b, q)
    ensures Name(b, q, b[q..e]) == Some(e) && Break(b, e)
  {
    var w := b[q..e];
    forall k | 0 <= k < |w| ensures IsWordChar(w[k]) { assert w[k] == b[q + k]; }
  }

  // ----- redirections and words -----

  lemma ArrowHere(b: string, i: nat) returns (a: Arrow, m: nat)
    requires i <= |b| && IsRedirect(Look(b, i)) && GetTok(b, GetTok(b, i).next).tok.Word?
    ensures ArrowEnd(b, i, a) == Some(m) && Break(b, m) && GetTok(b, GetTok(b, i).next).next == SkipWs(b, m)
  {
    var q := SkipWs(b, i);
    TokenIs(b, i, q);
    var e := if b[q] == '>' && q + 1 < |b| && b[q + 1] == '>' then q + 2 else q + 1;
    OperatorHere(b, q, e);
    var f := SkipWs(b, e);
    TokenSkip(b, e, f);
    TokenIs(b, f, f);
    m := WordEnd(b, f);
    NameHere(b, f, m);
    GapHere(b, i, q);
    GapHere(b, e, f);
    a := Arrow(b[i..q], b[q..e], b[e..f], b[f..m]);
  }

  lemma OperatorHere(b: string, q: nat, e: nat)
    requires q < |b| && IsRedirect(b[q]) && e == if b[q] == '>' && q + 1 < |b| && b[q + 1] == '>' then q + 2 else q + 1
    ensures Operator(b, q, b[q..e]) == Some(e) && TokenAt(b, q).next == SkipWs(b, e)
  {
    if e == q + 2 {
      assert b[q..e] == ">>";
    } else if b[q] == '>' {
      assert b[q..e] == ">";
    } else {
      assert b[q..e] == "<";
    }
  }

  lemma {:induction false} ArrowsFrom(b: string, i: nat) returns (arrows: seq<Arrow>, j: nat)
    requires i <= |b| && Redirs(b, i).Ok?
    ensures ArrowsEnd(b, i, arrows) == Some(j) && SkipWs(b, j) == Redirs(b, i).pos && (arrows != [] ==> Break(b, j))
    decreases |b| - i
  {
    if !IsRedirect(Look(b, i)) {
      arrows, j := [], i;
    } else {
      var a, m := ArrowHere(b, i);
      RedirsSkip(b, m, SkipWs(b, m));
      var tail;
      tail, j := ArrowsFrom(b, m);
      arrows := [a] + tail;
      assert arrows[1..] == tail;
    }
  }

  lemma {:induction false} ItemsFrom(b: string, i: nat, argv: seq<Span>, rs: seq<Redirect>, apart: bool)
    returns (items: seq<Item>, j: nat)
    requires i <= |b| && Args(b, i, argv, rs).Ok? && (apart ==> Break(b, i)) && |argv| < MAXARGS
    ensures ItemsEnd(b, i, items, apart) == Some(j) && SkipWs(b, j) == Args(b, i, argv, rs).pos
    ensures |argv| + |items| < MAXARGS
    decreases |b| - i
  {
    if EndsArgs(Look(b, i)) || GetTok(b, i).tok.End? {
      items, j := [], i;
    } else {
      var x, m := ItemHere(b, i);
      var t := GetTok(b, i);
      var got := Redirs(b, t.next).value;
      ArgsSkip(b, m, SkipWs(b, m), argv + [Span(t.q, t.e)], rs + got);
      var tail;
      tail, j := ItemsFrom(b, m, argv + [Span(t.q, t.e)], rs + got, true);
      items := [x] + tail;
      assert items[1..] == tail;
    }
  }

  lemma ItemHere(b: string, i: nat) returns (x: Item, m: nat)
    requires i <= |b| && GetTok(b, i).tok.Word? && Redirs(b, GetTok(b, i).next).Ok?
    ensures ItemEnd(b, i, x) == Some(m) && Break(b, m) && Redirs(b, GetTok(b, i).next).pos == SkipWs(b, m)
    ensures Break(b, i) ==> x.gap != ""
  {
    var q := SkipWs(b, i);
    TokenIs(b, i, q);
    var e := WordEnd(b, q);
    NameHere(b, q, e);
    GapHere(b, i, q);
    RedirsSkip(b, e, SkipWs(b, e));
    var arrows;
    arrows, m := ArrowsFrom(b, e);
    x := Item(b[i..q], b[q..e], arrows);
  }

  // ----- the grammar -----

  lemma {:induction false} SimpleFrom(b: string, i: nat) returns (x: Simple, j: nat)
    requires i <= |b| && ParseExec(b, i).Ok?
    ensures SimpleEnd(b, i, x) == Some(j) && SkipWs(b, j) == ParseExec(b, i).pos
    decreases |b| - i, 1
  {
    if Look(b, i) == '(' {
      x, j := GroupFrom(b, i);
    } else {
      var first, m := ArrowsFrom(b, i);
      var rs := Redirs(b, i).value;
      ArgsSkip(b, m, SkipWs(b, m), [], rs);
      var items;
      items, j := ItemsFrom(b, m, [], rs, first != []);
      x := Plain(first, items);
    }
  }

  lemma {:induction false} GroupFrom(b: string, i: nat) returns (x: Simple, j: nat)
    requires i <= |b| && Look(b, i) == '(' && ParseBlock(b, i).Ok?
    ensures SimpleEnd(b, i, x) == Some(j) && SkipWs(b, j) == ParseBlock(b, i).pos
    decreases |b| - i, 0
  {
    var gap, q := SignHere(b, i, '(');
    BlockLine(b, i, q);
    var line, k := LineFrom(b, q);
    BlockClose(b, i, q, k);
    var close, p := SignHere(b, k, ')');
    BlockArrows(b, i, q, k, p);
    var arrows;
    arrows, j := ArrowsFrom(b, p);
    x := Group(gap, line, close, arrows);
  }

  lemma BlockLine(b: string, i: nat, q: nat)
    requires i <= |b| && q <= |b| && Look(b, i) == '(' && ParseBlock(b, i).Ok? && GetTok(b, i).next == SkipWs(b, q)
    ensures ParseLine(b, q).Ok?
  {
    LineSkip(b, q, SkipWs(b, q));
  }

  lemma BlockClose(b: string, i: nat, q: nat, k: nat)
    requires i <= |b| && q <= |b| && Look(b, i) == '(' && ParseBlock(b, i).Ok? && GetTok(b, i).next == SkipWs(b, q)
    requires k <= |b| && ParseLine(b, q).Ok? && SkipWs(b, k) == ParseLine(b, q).pos
    ensures Look(b, k) == ')'
  {
    LineSkip(b, q, SkipWs(b, q));
    TokenSkip(b, k, SkipWs(b, k));
  }

  lemma BlockArrows(b: string, i: nat, q: nat, k: nat, p: nat)
    requires i <= |b| && q <= |b| && Look(b, i) == '(' && ParseBlock(b, i).Ok? && GetTok(b, i).next == SkipWs(b, q)
    requires k <= |b| && ParseLine(b, q).Ok? && SkipWs(b, k) == ParseLine(b, q).pos
    requires p <= |b| && GetTok(b, k).next == SkipWs(b, p)
    ensures Redirs(b, p).Ok? && Redirs(b, p).pos == ParseBlock(b, i).pos
  {
    LineSkip(b, q, SkipWs(b, q));
    TokenSkip(b, k, SkipWs(b, k));
    RedirsSkip(b, p, SkipWs(b, p));
  }

  lemma {:induction false} PipelineFrom(b: string, i: nat) returns (x: Pipeline, j: nat)
    requires i <= |b| && ParsePipe(b, i).Ok?
    ensures PipelineEnd(b, i, x) == Some(j) && SkipWs(b, j) == ParsePipe(b, i).pos
    decreases |b| - i, 2
  {
    var cmd, k := SimpleFrom(b, i);
    if Look(b, k) == '|' {
      var gap, q := SignHere(b, k, '|');
      PipeNext(b, i, k, q);
      var next;
      next, j := PipelineFrom(b, q);
      x := Piped(cmd, gap, next);
    } else {
      TokenSkip(b, k, SkipWs(b, k));
      x, j := Single(cmd), k;
    }
  }

  lemma PipeNext(b: string, i: nat, k: nat, q: nat)
    requires i <= |b| && k < q <= |b| && ParsePipe(b, i).Ok? && SkipWs(b, k) == ParseExec(b, i).pos
    requires Look(b, k) == '|' && GetTok(b, k).next == SkipWs(b, q)
    ensures ParsePipe(b, q).Ok? && ParsePipe(b, q).pos == ParsePipe(b, i).pos
  {
    TokenSkip(b, k, SkipWs(b, k));
    PipeSkip(b, q, SkipWs(b, q));
  }

  lemma {:induction false} AmpsFrom(b: string, c: Cmd, i: nat) returns (amps: seq<string>, j: nat)
    requires i <= |b|
    ensures AmpsEnd(b, i, amps) == Some(j) && SkipWs(b, j) == Backs(b, c, i).1
    decreases |b| - i
  {
    if Look(b, i) == '&' {
      var gap, q := SignHere(b, i, '&');
      BackRound(b, i, q, c);
      var tail;
      tail, j := AmpsFrom(b, Back(c), q);
      amps := [gap] + tail;
      assert amps[1..] == tail;
    } else {
      amps, j := [], i;
    }
  }

  /** A pipeline and the `&`s after it. */
  lemma {:induction false} JobFrom(b: string, i: nat) returns (pipe: Pipeline, amps: seq<string>, k: nat)
    requires i <= |b| && ParsePipe(b, i).Ok?
    ensures JobEnd(b, i, pipe, amps) == Some(k)
    ensures SkipWs(b, k) == Backs(b, ParsePipe(b, i).value, ParsePipe(b, i).pos).1
    decreases |b| - i, 3
  {
    var m;
    pipe, m := PipelineFrom(b, i);
    var c, p := ParsePipe(b, i).value, ParsePipe(b, i).pos;
    BacksSkip(b, c, m, p);
    amps, k := AmpsFrom(b, c, m);
  }

  lemma {:induction false} LineFrom(b: string, i: nat) returns (x: Line, j: nat)
    requires i <= |b| && ParseLine(b, i).Ok?
    ensures LineEnd(b, i, x) == Some(j) && SkipWs(b, j) == ParseLine(b, i).pos
    decreases |b| - i, 4
  {
    var pipe, amps, k := JobFrom(b, i);
    if Look(b, k) == ';' {
      var gap, q := SignHere(b, k, ';');
      LineNext(b, i, k, q);
      var rest;
      rest, j := LineFrom(b, q);
      x := More(pipe, amps, gap, rest);
    } else {
      TokenSkip(b, k, SkipWs(b, k));
      x, j := Last(pipe, amps), k;
    }
  }

  lemma LineNext(b: string, i: nat, k: nat, q: nat)
    requires i <= |b| && k < q <= |b| && ParseLine(b, i).Ok?
    requires SkipWs(b, k) == Backs(b, ParsePipe(b, i).value, ParsePipe(b, i).pos).1
    requires Look(b, k) == ';' && GetTok(b, k).next == SkipWs(b, q)
    ensures ParseLine(b, q).Ok? && ParseLine(b, q).pos == ParseLine(b, i).pos
  {
    TokenSkip(b, k, SkipWs(b, k));
    LineSkip(b, q, SkipWs(b, q));
  }

  /** parsecmd accepts a line if and only if it is a command written out, and then it reads it as meant. */
  lemma AcceptsExactly(b: string)
    ensures ParseCmd(b).Ok? <==> exists x: Line, gap: string :: Written(b, x, gap)
    ensures ParseCmd(b).Ok? ==>
      exists x: Line, gap: string :: Written(b, x, gap) && Read(b, ParseCmd(b).value) == LineTree(x)
  {
    if ParseCmd(b).Ok? {
      var x, j := LineFrom(b, 0);
      SkipAgain(b, j);
      GapHere(b, j, |b|);
      LineIs(b, 0, x);
      assert b == b[0..j] + b[j..|b|];
      assert Written(b, x, b[j..|b|]);
      ReadsAsMeant(b, x, b[j..|b|]);
    }
    if x: Line, gap: string :| Written(b, x, gap) { ReadsAsMeant(b, x, gap); }
  }
}
