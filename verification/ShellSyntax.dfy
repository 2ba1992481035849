/**
 The shell's language apart from its parser: commands as they are written, with their blanks, and what
 they mean. The parser accepts exactly what can be written so, and reads it as meant.
 */
module ShellSyntax {
  import opened ShellParser
  import opened Options

  /** A command with its words as strings. */
  datatype Tree =
    | TExec(args: seq<string>)
    | TRedir(cmd: Tree, file: string, fd: nat)
    | TPipe(left: Tree, right: Tree)
    | TList(left: Tree, right: Tree)
    | TBack(cmd: Tree)

  // ----- commands as they are written -----

  /** Blanks, the operator, blanks, a file name. */
  datatype Arrow = Arrow(gap: string, op: string, space: string, file: string)

  /** Blanks, a word, and the redirections after it. */
  datatype Item = Item(gap: string, word: string, arrows: seq<Arrow>)

  /** A simple command, its redirections anywhere; or a line in parentheses and redirections after it. */
  datatype Simple =
    | Plain(first: seq<Arrow>, items: seq<Item>)
    | Group(gap: string, line: Line, close: string, arrows: seq<Arrow>)

  datatype Pipeline = Single(cmd: Simple) | Piped(cmd: Simple, gap: string, next: Pipeline)

  /** A pipeline, any number of `&`, each with the blanks before it, and perhaps `;` and another line. */
  datatype Line =
    | Last(pipe: Pipeline, amps: seq<string>)
    | More(pipe: Pipeline, amps: seq<string>, gap: string, rest: Line)

  predicate Blank(s: string) { forall k :: 0 <= k < |s| ==> IsWs(s[k]) }

  predicate IsWord(w: string) { w != "" && forall k :: 0 <= k < |w| ==> IsWordChar(w[k]) }

  predicate ArrowOk(a: Arrow) {
    Blank(a.gap) && (a.op == "<" || a.op == ">" || a.op == ">>") && Blank(a.space) && IsWord(a.file)
  }

  predicate ArrowsOk(arrows: seq<Arrow>) { forall k :: 0 <= k < |arrows| ==> ArrowOk(arrows[k]) }

  predicate ItemOk(x: Item) { Blank(x.gap) && IsWord(x.word) && ArrowsOk(x.arrows) }

  /** A word is set apart from a word or file name before it. */
  predicate ItemsOk(items: seq<Item>, apart: bool) {
    forall k :: 0 <= k < |items| ==> ItemOk(items[k]) && (apart || k > 0 ==> items[k].gap != "")
  }

  predicate AmpsOk(amps: seq<string>) { forall k :: 0 <= k < |amps| ==> Blank(amps[k]) }

  predicate SimpleOk(x: Simple) {
    match x
    case Plain(first, items) => |items| < MAXARGS && ArrowsOk(first) && ItemsOk(items, first != [])
    case Group(gap, line, close, arrows) => Blank(gap) && LineOk(line) && Blank(close) && ArrowsOk(arrows)
  }

  predicate PipelineOk(x: Pipeline) {
    SimpleOk(x.cmd) && (x.Piped? ==> Blank(x.gap) && PipelineOk(x.next))
  }

  predicate LineOk(x: Line) {
    PipelineOk(x.pipe) && AmpsOk(x.amps) && (x.More? ==> Blank(x.gap) && LineOk(x.rest))
  }

  // ----- their text -----

  function ArrowText(a: Arrow): string { a.gap + a.op + a.space + a.file }

  function ArrowsText(arrows: seq<Arrow>): string {
    if arrows == [] then "" else ArrowText(arrows[0]) + ArrowsText(arrows[1..])
  }

  function ItemText(x: Item): string { x.gap + x.word + ArrowsText(x.arrows) }

  function ItemsText(items: seq<Item>): string {
    if items == [] then "" else ItemText(items[0]) + ItemsText(items[1..])
  }

  function AmpsText(amps: seq<string>): string {
    if amps == [] then "" else amps[0] + "&" + AmpsText(amps[1..])
  }

  function SimpleText(x: Simple): string {
    match x
    case Plain(first, items) => ArrowsText(first) + ItemsText(items)
    case Group(gap, line, close, arrows) => gap + "(" + LineText(line) + close + ")" + ArrowsText(arrows)
  }

  function PipelineText(x: Pipeline): string {
    SimpleText(x.cmd) + if x.Single? then "" else x.gap + "|" + PipelineText(x.next)
  }

  function LineText(x: Line): string {
    PipelineText(x.pipe) + AmpsText(x.amps) + if x.Last? then "" else x.gap + ";" + LineText(x.rest)
  }

  // ----- what they mean -----

  /** Each redirection applies to what the ones before it have made of the command. */
  function Redirected(t: Tree, arrows: seq<Arrow>): Tree
    decreases |arrows|
  {
    if arrows == [] then t
    else Redirected(TRedir(t, arrows[0].file, if arrows[0].op == "<" then 0 else 1), arrows[1..])
  }

  function WordsOf(items: seq<Item>): seq<string> {
    seq(|items|, k requires 0 <= k < |items| => items[k].word)
  }

  function ArrowsOf(items: seq<Item>): seq<Arrow> {
    if items == [] then [] else items[0].arrows + ArrowsOf(items[1..])
  }

  function Backed(t: Tree, n: nat): Tree { if n == 0 then t else TBack(Backed(t, n - 1)) }

  function SimpleTree(x: Simple): Tree {
    match x
    case Plain(first, items) => Redirected(TExec(WordsOf(items)), first + ArrowsOf(items))
    case Group(_, line, _, arrows) => Redirected(LineTree(line), arrows)
  }

  function PipelineTree(x: Pipeline): Tree {
    match x
    case Single(cmd) => SimpleTree(cmd)
    case Piped(cmd, _, next) => TPipe(SimpleTree(cmd), PipelineTree(next))
  }

  function LineTree(x: Line): Tree {
    var t := Backed(PipelineTree(x.pipe), |x.amps|);
    if x.More? then TList(t, LineTree(x.rest)) else t
  }

  // ----- reading a parsed command back from the buffer -----

  function Text(b: string, s: Span): string {
    if s.q <= s.e <= |b| then b[s.q..s.e] else ""
  }

  function Texts(b: string, argv: seq<Span>): seq<string> {
    seq(|argv|, k requires 0 <= k < |argv| => Text(b, argv[k]))
  }

  function Read(b: string, c: Cmd): Tree {
    match c
    case Exec(argv) => TExec(Texts(b, argv))
    case Redir(d, f, fd) => TRedir(Read(b, d), Text(b, f), fd)
    case Pipe(l, r) => TPipe(Read(b, l), Read(b, r))
    case List(l, r) => TList(Read(b, l), Read(b, r))
    case Back(d) => TBack(Read(b, d))
  }

  // ----- text at a position -----

  ghost predicate Stands(b: string, i: nat, s: string) {
    i + |s| <= |b| && b[i..i + |s|] == s
  }

  lemma CharAt(b: string, i: nat, s: string, k: nat)
    requires Stands(b, i, s) && k < |s|
    ensures b[i + k] == s[k]
  {
    assert b[i..i + |s|][k] == b[i + k];
  }

  /** No word goes on at `j`. */
  predicate Break(b: string, j: nat) { j <= |b| && (j < |b| ==> !IsWordChar(b[j])) }

  /** Where a piece of text that stands at `i` ends, if it does stand there. */
  ghost function Literal(b: string, i: nat, s: string): (r: Option<nat>)
    ensures r.Some? ==> i <= r.value <= |b|
  {
    if Stands(b, i, s) then Some(i + |s|) else None
  }

  ghost function Gap(b: string, i: nat, s: string): (r: Option<nat>)
    ensures r.Some? ==> i <= r.value <= |b|
  {
    if Blank(s) then Literal(b, i, s) else None
  }

  ghost function Name(b: string, i: nat, w: string): (r: Option<nat>)
    ensures r.Some? ==> i < r.value <= |b|
  {
    if IsWord(w) then Literal(b, i, w) else None
  }

  ghost function Operator(b: string, i: nat, op: string): (r: Option<nat>)
    ensures r.Some? ==> i < r.value <= |b|
  {
    if op == "<" || op == ">" || op == ">>" then Literal(b, i, op) else None
  }

  /** Blanks and a character. */
  ghost function Sign(b: string, i: nat, gap: string, c: char): (r: Option<nat>)
    ensures r.Some? ==> i < r.value <= |b|
  {
    match Gap(b, i, gap)
    case None => None
    case Some(q) => if q < |b| && b[q] == c then Some(q + 1) else None
  }

  /** Where a command that is well-formed and stands at `i` ends. */
  ghost function ArrowEnd(b: string, i: nat, a: Arrow): (r: Option<nat>)
    ensures r.Some? ==> i < r.value <= |b|
  {
    match Gap(b, i, a.gap)
    case None => None
    case Some(q) =>
      match Operator(b, q, a.op)
      case None => None
      case Some(e) =>
        match Gap(b, e, a.space)
        case None => None
        case Some(f) => Name(b, f, a.file)
  }

  ghost function ArrowsEnd(b: string, i: nat, arrows: seq<Arrow>): (r: Option<nat>)
    ensures r.Some? ==> i <= r.value <= |b|
    decreases |arrows|
  {
    if arrows == [] then if i <= |b| then Some(i) else None
    else
      match ArrowEnd(b, i, arrows[0])
      case None => None
      case Some(m) => ArrowsEnd(b, m, arrows[1..])
  }

  ghost function ItemEnd(b: string, i: nat, x: Item): (r: Option<nat>)
    ensures r.Some? ==> i < r.value <= |b|
  {
    match Gap(b, i, x.gap)
    case None => None
    case Some(q) =>
      match Name(b, q, x.word)
      case None => None
      case Some(e) => ArrowsEnd(b, e, x.arrows)
  }

  /** `apart`: a word stands before, so blanks come between. */
  ghost function ItemsEnd(b: string, i: nat, items: seq<Item>, apart: bool): (r: Option<nat>)
    ensures r.Some? ==> i <= r.value <= |b|
    decreases |items|
  {
    if items == [] then if i <= |b| then Some(i) else None
    else if apart && items[0].gap == "" then None
    else
      match ItemEnd(b, i, items[0])
      case None => None
      case Some(m) => ItemsEnd(b, m, items[1..], true)
  }

  ghost function AmpsEnd(b: string, i: nat, amps: seq<string>): (r: Option<nat>)
    ensures r.Some? ==> i <= r.value <= |b|
    decreases |amps|
  {
    if amps == [] then if i <= |b| then Some(i) else None
    else
      match Sign(b, i, amps[0], '&')
      case None => None
      case Some(m) => AmpsEnd(b, m, amps[1..])
  }

  ghost function PlainEnd(b: string, i: nat, first: seq<Arrow>, items: seq<Item>): (r: Option<nat>)
    ensures r.Some? ==> i <= r.value <= |b|
  {
    if |items| >= MAXARGS then None
    else
      match ArrowsEnd(b, i, first)
      case None => None
      case Some(m) => ItemsEnd(b, m, items, first != [])
  }

  ghost function SimpleEnd(b: string, i: nat, x: Simple): (r: Option<nat>)
    ensures r.Some? ==> i <= r.value <= |b|
    decreases x, 0
  {
    match x
    case Plain(first, items) => PlainEnd(b, i, first, items)
    case Group(gap, line, close, arrows) =>
      match Sign(b, i, gap, '(')
      case None => None
      case Some(q) =>
        match LineEnd(b, q, line)
        case None => None
        case Some(k) =>
          match Sign(b, k, close, ')')
          case None => None
          case Some(p) => ArrowsEnd(b, p, arrows)
  }

  ghost function PipelineEnd(b: string, i: nat, x: Pipeline): (r: Option<nat>)
    ensures r.Some? ==> i <= r.value <= |b|
    decreases x, 0
  {
    match SimpleEnd(b, i, x.cmd)
    case None => None
    case Some(k) =>
      if x.Single? then Some(k)
      else
        match Sign(b, k, x.gap, '|')
        case None => None
        case Some(q) => PipelineEnd(b, q, x.next)
  }

  /** A pipeline and its `&`s. */
  ghost function JobEnd(b: string, i: nat, pipe: Pipeline, amps: seq<string>): (r: Option<nat>)
    ensures r.Some? ==> i <= r.value <= |b|
    decreases pipe, 1
  {
    match PipelineEnd(b, i, pipe)
    case None => None
    case Some(m) => AmpsEnd(b, m, amps)
  }

  ghost function LineEnd(b: string, i: nat, x: Line): (r: Option<nat>)
    ensures r.Some? ==> i <= r.value <= |b|
    decreases x, 0
  {
    match JobEnd(b, i, x.pipe, x.amps)
    case None => None
    case Some(k) =>
      if x.Last? then Some(k)
      else
        match Sign(b, k, x.gap, ';')
        case None => None
        case Some(q) => LineEnd(b, q, x.rest)
  }

  // ----- blanks and tokens -----

  lemma {:induction false} Skips(b: string, i: nat, gap: string)
    requires Stands(b, i, gap) && Blank(gap)
    ensures SkipWs(b, i) == SkipWs(b, i + |gap|)
    decreases |gap|
  {
    if gap != "" {
      CharAt(b, i, gap, 0);
      assert b[i + 1..i + 1 + |gap[1..]|] == b[i..i + |gap|][1..];
      Skips(b, i + 1, gap[1..]);
    }
  }

  lemma SkipAgain(b: string, i: nat)
    requires i <= |b|
    ensures SkipWs(b, SkipWs(b, i)) == SkipWs(b, i)
  {
  }

  /** What is parsed depends only on where the blanks end. */
  lemma TokenSkip(b: string, i: nat, p: nat)
    requires i <= |b| && p == SkipWs(b, i)
    ensures GetTok(b, i) == GetTok(b, p) && Look(b, i) == Look(b, p) && SkipWs(b, p) == p
  {
    SkipAgain(b, i);
  }

  lemma RedirsSkip(b: string, i: nat, p: nat)
    requires i <= |b| && p == SkipWs(b, i)
    ensures Redirs(b, i) == Redirs(b, p)
  {
    TokenSkip(b, i, p);
  }

  lemma ArgsSkip(b: string, i: nat, p: nat, argv: seq<Span>, rs: seq<Redirect>)
    requires i <= |b| && p == SkipWs(b, i)
    ensures Args(b, i, argv, rs) == Args(b, p, argv, rs)
  {
    TokenSkip(b, i, p);
  }

  lemma BacksSkip(b: string, c: Cmd, i: nat, p: nat)
    requires i <= |b| && p == SkipWs(b, i)
    ensures Backs(b, c, i) == Backs(b, c, p)
  {
    TokenSkip(b, i, p);
  }

  lemma ExecSkip(b: string, i: nat, p: nat)
    requires i <= |b| && p == SkipWs(b, i)
    ensures ParseExec(b, i) == ParseExec(b, p)
  {
    TokenSkip(b, i, p);
    RedirsSkip(b, i, p);
  }

  lemma PipeSkip(b: string, i: nat, p: nat)
    requires i <= |b| && p == SkipWs(b, i)
    ensures ParsePipe(b, i) == ParsePipe(b, p)
  {
    ExecSkip(b, i, p);
  }

  lemma LineSkip(b: string, i: nat, p: nat)
    requires i <= |b| && p == SkipWs(b, i)
    ensures ParseLine(b, i) == ParseLine(b, p)
  {
    PipeSkip(b, i, p);
  }

  lemma {:induction false} WordEndAt(b: string, i: nat, e: nat)
    requires i <= e <= |b| && Break(b, e) && forall k :: i <= k < e ==> IsWordChar(b[k])
    ensures WordEnd(b, i) == e
    decreases e - i
  {
    if i < e { WordEndAt(b, i + 1, e); }
  }

  /** The token at `q`, where no blank is. */
  function TokenAt(b: string, q: nat): Token
    requires q < |b|
  {
    if b[q] == '>' then
      if q + 1 < |b| && b[q + 1] == '>' then Token(Append, q, q + 2, SkipWs(b, q + 2))
      else Token(Sym('>'), q, q + 1, SkipWs(b, q + 1))
    else if IsSym(b[q]) then Token(Sym(b[q]), q, q + 1, SkipWs(b, q + 1))
    else Token(Word, q, WordEnd(b, q), SkipWs(b, WordEnd(b, q)))
  }

  lemma TokenIs(b: string, i: nat, q: nat)
    requires i <= |b| && SkipWs(b, i) == q < |b|
    ensures GetTok(b, i) == TokenAt(b, q) && Look(b, i) == b[q]
  {
  }

  /** After blanks the token is the one that stands behind them. */
  lemma TokenAfter(b: string, i: nat, gap: string, q: nat)
    requires Stands(b, i, gap) && Blank(gap) && q == i + |gap| < |b| && !IsWs(b[q])
    ensures SkipWs(b, i) == q && GetTok(b, i) == TokenAt(b, q) && Look(b, i) == b[q]
  {
    Skips(b, i, gap);
    TokenIs(b, i, q);
  }

  lemma WordToken(b: string, i: nat, gap: string, q: nat, w: string, e: nat)
    requires Stands(b, i, gap) && Blank(gap) && q == i + |gap| && Stands(b, q, w) && IsWord(w) && e == q + |w|
    requires Break(b, e)
    ensures q < |b| && GetTok(b, i) == Token(Word, q, e, SkipWs(b, e)) && Text(b, Span(q, e)) == w
    ensures Look(b, i) == b[q] && IsWordChar(b[q])
  {
    forall k | q <= k < e ensures IsWordChar(b[k]) { CharAt(b, q, w, k - q); }
    WordEndAt(b, q, e);
    TokenAfter(b, i, gap, q);
  }

  lemma SignToken(b: string, i: nat, gap: string, c: char, q: nat)
    requires Sign(b, i, gap, c) == Some(q) && IsSym(c) && c != '>'
    ensures GetTok(b, i).tok == Sym(c) && GetTok(b, i).next == SkipWs(b, q) && Look(b, i) == c
  {
    TokenAfter(b, i, gap, i + |gap|);
  }

  // ----- redirections -----

  function Fd(a: Arrow): nat { if a.op == "<" then 0 else 1 }

  /** The redirections read are the ones written. */
  ghost predicate Reads(b: string, got: seq<Redirect>, arrows: seq<Arrow>) {
    |got| == |arrows| && forall k :: 0 <= k < |got| ==>
      Text(b, got[k].file) == arrows[k].file && got[k].fd == Fd(arrows[k])
  }

  lemma ReadsJoin(b: string, got: seq<Redirect>, arrows: seq<Arrow>, more: seq<Redirect>, tail: seq<Arrow>)
    requires Reads(b, got, arrows) && Reads(b, more, tail)
    ensures Reads(b, got + more, arrows + tail)
  {
    var g, a := got + more, arrows + tail;
    forall k | 0 <= k < |g| ensures Text(b, g[k].file) == a[k].file && g[k].fd == Fd(a[k]) {
      if k < |got| { assert g[k] == got[k] && a[k] == arrows[k]; }
      else { assert g[k] == more[k - |got|] && a[k] == tail[k - |got|]; }
    }
  }

  lemma ReadsCons(b: string, r: Redirect, rest: seq<Redirect>, arrows: seq<Arrow>, tail: seq<Arrow>)
    requires arrows != [] && tail == arrows[1..] && Text(b, r.file) == arrows[0].file && r.fd == Fd(arrows[0])
    requires Reads(b, rest, tail)
    ensures Reads(b, [r] + rest, arrows)
  {
    var got := [r] + rest;
    forall k | 0 <= k < |got| ensures Text(b, got[k].file) == arrows[k].file && got[k].fd == Fd(arrows[k]) {
      if k > 0 { assert got[k] == rest[k - 1] && arrows[k] == tail[k - 1]; }
    }
  }

  /** An operator of redirection is one token, since no `>` follows a single one. */
  lemma ArrowToken(b: string, q: nat, op: string, e: nat)
    requires Operator(b, q, op) == Some(e) && (e < |b| ==> b[e] != '>')
    ensures IsRedirect(b[q])
    ensures TokenAt(b, q).next == SkipWs(b, e) && (TokenAt(b, q).tok == Sym('<') <==> op == "<")
  {
    CharAt(b, q, op, 0);
    if op == ">>" { CharAt(b, q, op, 1); }
  }

  lemma NoArrow(b: string, e: nat, space: string, f: nat, file: string)
    requires Gap(b, e, space) == Some(f) && Name(b, f, file).Some?
    ensures e < |b| && b[e] != '>'
  {
    if space != "" { CharAt(b, e, space, 0); }
    CharAt(b, f, file, 0);
  }

  lemma ArrowParse(b: string, i: nat, a: Arrow, m: nat) returns (r: Redirect)
    requires ArrowEnd(b, i, a) == Some(m) && Break(b, m)
    ensures IsRedirect(Look(b, i)) && Text(b, r.file) == a.file && r.fd == Fd(a)
    ensures var op := GetTok(b, i); var t := GetTok(b, op.next);
      t.tok.Word? && r == Redirect(Span(t.q, t.e), if op.tok == Sym('<') then 0 else 1) && t.next == SkipWs(b, m)
  {
    var q := i + |a.gap|;
    var e := q + |a.op|;
    var f := e + |a.space|;
    NoArrow(b, e, a.space, f, a.file);
    ArrowToken(b, q, a.op, e);
    TokenAfter(b, i, a.gap, q);
    WordToken(b, e, a.space, f, a.file, m);
    TokenSkip(b, e, SkipWs(b, e));
    r := Redirect(Span(f, m), Fd(a));
  }

  lemma ArrowStart(b: string, i: nat, a: Arrow)
    requires ArrowEnd(b, i, a).Some?
    ensures Break(b, i) && IsRedirect(Look(b, i))
  {
    if a.gap != "" { CharAt(b, i, a.gap, 0); }
    CharAt(b, i + |a.gap|, a.op, 0);
    TokenAfter(b, i, a.gap, i + |a.gap|);
  }

  lemma ArrowsStart(b: string, m: nat, arrows: seq<Arrow>, j: nat)
    requires ArrowsEnd(b, m, arrows) == Some(j) && Break(b, j)
    ensures Break(b, m)
  {
    if arrows != [] { ArrowStart(b, m, arrows[0]); }
  }

  lemma {:induction false} ArrowsParse(b: string, i: nat, arrows: seq<Arrow>, j: nat) returns (got: seq<Redirect>)
    requires ArrowsEnd(b, i, arrows) == Some(j) && !IsRedirect(Look(b, j)) && (arrows != [] ==> Break(b, j))
    ensures Redirs(b, i) == Ok(got, SkipWs(b, j)) && Reads(b, got, arrows)
    decreases |arrows|
  {
    if arrows == [] {
      got := [];
    } else {
      var a, tail := arrows[0], arrows[1..];
      var m := ArrowEnd(b, i, a).value;
      ArrowsStart(b, m, tail, j);
      var first := ArrowParse(b, i, a, m);
      var rest := ArrowsParse(b, m, tail, j);
      RedirsRound(b, i, first, m, rest, SkipWs(b, j));
      got := [first] + rest;
      ReadsCons(b, first, rest, arrows, tail);
    }
  }

  /** One round of parseredirs' loop. */
  lemma RedirsRound(b: string, i: nat, r: Redirect, m: nat, rest: seq<Redirect>, p: nat)
    requires i < m <= |b| && IsRedirect(Look(b, i)) && Redirs(b, m) == Ok(rest, p)
    requires var op := GetTok(b, i); var t := GetTok(b, op.next);
      t.tok.Word? && r == Redirect(Span(t.q, t.e), if op.tok == Sym('<') then 0 else 1) && t.next == SkipWs(b, m)
    ensures Redirs(b, i) == Ok([r] + rest, p)
  {
    RedirsSkip(b, m, SkipWs(b, m));
  }

  lemma {:induction false} ReadWrap(b: string, c: Cmd, got: seq<Redirect>, arrows: seq<Arrow>)
    requires Reads(b, got, arrows)
    ensures Read(b, Wrap(c, got)) == Redirected(Read(b, c), arrows)
    decreases |got|
  {
    if got != [] { ReadWrap(b, Redir(c, got[0].file, got[0].fd), got[1..], arrows[1..]); }
  }

  // ----- words -----

  /** What may come after a line, a pipeline, a simple command. */
  predicate EndsLine(b: string, j: nat) { j <= |b| && (SkipWs(b, j) == |b| || Look(b, j) == ')') }

  predicate EndsPipeline(b: string, j: nat) { EndsLine(b, j) || (j <= |b| && (Look(b, j) == '&' || Look(b, j) == ';')) }

  predicate EndsSimple(b: string, j: nat) { EndsPipeline(b, j) || (j <= |b| && Look(b, j) == '|') }

  lemma EndsBreak(b: string, j: nat)
    requires EndsSimple(b, j)
    ensures Break(b, j) && !IsRedirect(Look(b, j)) && Look(b, j) != '('
    ensures SkipWs(b, j) == |b| || EndsArgs(Look(b, j))
  {
  }

  /** Where items start there is no redirection and no parenthesis, and no word goes on if they are set apart. */
  lemma ItemsStart(b: string, m: nat, items: seq<Item>, apart: bool, j: nat)
    requires ItemsEnd(b, m, items, apart) == Some(j) && EndsSimple(b, j)
    ensures !IsRedirect(Look(b, m)) && Look(b, m) != '(' && (apart ==> Break(b, m))
  {
    if items == [] {
      EndsBreak(b, j);
    } else {
      GapBreaks(b, m, items[0].gap, m + |items[0].gap|, items[0].word);
    }
  }

  lemma GapBreaks(b: string, m: nat, gap: string, q: nat, w: string)
    requires Gap(b, m, gap) == Some(q) && Name(b, q, w).Some?
    ensures IsWordChar(Look(b, m)) && (gap != "" ==> Break(b, m))
  {
    if gap != "" { CharAt(b, m, gap, 0); }
    CharAt(b, q, w, 0);
    TokenAfter(b, m, gap, q);
  }

  /** parseexec's loop takes the items, and goes on behind them with their words and redirections. */
  lemma {:induction false} ItemsParse(b: string, i: nat, items: seq<Item>, apart: bool, j: nat,
                                      argv: seq<Span>, rs: seq<Redirect>)
    returns (spans: seq<Span>, more: seq<Redirect>)
    requires ItemsEnd(b, i, items, apart) == Some(j) && EndsSimple(b, j) && |argv| + |items| < MAXARGS
    ensures Args(b, i, argv, rs) == Args(b, j, argv + spans, rs + more)
    ensures Texts(b, spans) == WordsOf(items) && Reads(b, more, ArrowsOf(items))
    decreases |items|
  {
    if items == [] {
      spans, more := [], [];
      assert argv + spans == argv && rs + more == rs;
    } else {
      var x, tail := items[0], items[1..];
      var m := ItemEnd(b, i, x).value;
      ItemsStart(b, m, tail, true, j);
      var s, got := ItemParse(b, i, x, m, argv, rs);
      var spans', more' := ItemsParse(b, m, tail, true, j, argv + [s], rs + got);
      spans, more := [s] + spans', got + more';
      Joined(argv, [s], spans');
      Joined(rs, got, more');
      WordsCons(b, s, spans', items, tail);
      ReadsJoin(b, got, x.arrows, more', ArrowsOf(tail));
    }
  }

  /** One round of parseexec's loop. */
  lemma ItemParse(b: string, i: nat, x: Item, m: nat, argv: seq<Span>, rs: seq<Redirect>)
    returns (s: Span, got: seq<Redirect>)
    requires ItemEnd(b, i, x) == Some(m) && Break(b, m) && !IsRedirect(Look(b, m)) && |argv| + 1 < MAXARGS
    ensures Text(b, s) == x.word && Reads(b, got, x.arrows)
    ensures Args(b, i, argv, rs) == Args(b, m, argv + [s], rs + got)
  {
    var q := i + |x.gap|;
    var e := q + |x.word|;
    ArrowsStart(b, e, x.arrows, m);
    WordToken(b, i, x.gap, q, x.word, e);
    s := Span(q, e);
    got := ArrowsParse(b, e, x.arrows, m);
    RedirsSkip(b, e, SkipWs(b, e));
    ArgsRound(b, i, Token(Word, q, e, SkipWs(b, e)), argv, rs, got, m);
  }

  lemma ArgsRound(b: string, i: nat, t: Token, argv: seq<Span>, rs: seq<Redirect>, got: seq<Redirect>, m: nat)
    requires i <= |b| && m <= |b| && GetTok(b, i) == t && t.tok.Word? && IsWordChar(Look(b, i)) && |argv| + 1 < MAXARGS
    requires Redirs(b, t.next) == Ok(got, SkipWs(b, m))
    ensures Args(b, i, argv, rs) == Args(b, m, argv + [Span(t.q, t.e)], rs + got)
  {
    ArgsSkip(b, m, SkipWs(b, m), argv + [Span(t.q, t.e)], rs + got);
  }

  lemma Joined<T>(a: seq<T>, b: seq<T>, c: seq<T>)
    ensures a + b + c == a + (b + c)
  {
  }

  lemma WordsCons(b: string, s: Span, spans: seq<Span>, items: seq<Item>, tail: seq<Item>)
    requires items != [] && tail == items[1..] && Text(b, s) == items[0].word && Texts(b, spans) == WordsOf(tail)
    ensures Texts(b, [s] + spans) == WordsOf(items)
  {
    var all := [s] + spans;
    assert |Texts(b, spans)| == |WordsOf(tail)|;
    forall k | 0 <= k < |all| ensures Texts(b, all)[k] == WordsOf(items)[k] {
      if k > 0 { assert all[k] == spans[k - 1] && Texts(b, spans)[k - 1] == WordsOf(tail)[k - 1]; }
    }
  }

  // ----- the grammar reads what is written -----

  lemma PlainParse(b: string, i: nat, first: seq<Arrow>, items: seq<Item>, j: nat) returns (c: Cmd)
    requires PlainEnd(b, i, first, items) == Some(j) && EndsSimple(b, j)
    ensures ParseExec(b, i) == Ok(c, SkipWs(b, j)) && Read(b, c) == SimpleTree(Plain(first, items))
  {
    var m := ArrowsEnd(b, i, first).value;
    ItemsStart(b, m, items, first != [], j);
    if first != [] { ArrowStart(b, i, first[0]); }
    var got := ArrowsParse(b, i, first, m);
    var spans, more := ItemsParse(b, m, items, first != [], j, [], got);
    ReadsJoin(b, got, first, more, ArrowsOf(items));
    c := PlainRound(b, i, got, m, spans, more, j, first + ArrowsOf(items));
  }

  lemma PlainRound(b: string, i: nat, got: seq<Redirect>, m: nat, spans: seq<Span>, more: seq<Redirect>, j: nat,
                   arrows: seq<Arrow>) returns (c: Cmd)
    requires i <= |b| && m <= |b| && Look(b, i) != '(' && Redirs(b, i) == Ok(got, SkipWs(b, m)) && EndsSimple(b, j)
    requires Args(b, m, [], got) == Args(b, j, [] + spans, got + more) && Reads(b, got + more, arrows)
    ensures ParseExec(b, i) == Ok(c, SkipWs(b, j)) && Read(b, c) == Redirected(TExec(Texts(b, spans)), arrows)
  {
    assert [] + spans == spans;
    c := Wrap(Exec(spans), got + more);
    EndsBreak(b, j);
    ArgsSkip(b, m, SkipWs(b, m), [], got);
    ReadWrap(b, Exec(spans), got + more, arrows);
  }

  lemma {:induction false} GroupParse(b: string, i: nat, x: Simple, j: nat) returns (c: Cmd)
    requires x.Group? && SimpleEnd(b, i, x) == Some(j) && EndsSimple(b, j)
    ensures ParseExec(b, i) == Ok(c, SkipWs(b, j)) && Read(b, c) == SimpleTree(x)
    decreases x, 0
  {
    var q := Sign(b, i, x.gap, '(').value;
    var k := LineEnd(b, q, x.line).value;
    var p := Sign(b, k, x.close, ')').value;
    SignToken(b, i, x.gap, '(', q);
    SignToken(b, k, x.close, ')', p);
    var d := LineParse(b, q, x.line, k);
    EndsBreak(b, j);
    var got := ArrowsParse(b, p, x.arrows, j);
    BlockRound(b, i, q, d, k, p, got, SkipWs(b, j));
    c := Wrap(d, got);
    ReadWrap(b, d, got, x.arrows);
  }

  lemma BlockRound(b: string, i: nat, q: nat, d: Cmd, k: nat, p: nat, got: seq<Redirect>, end: nat)
    requires i < q <= k < p <= |b| && Look(b, i) == '(' && GetTok(b, i).next == SkipWs(b, q)
    requires ParseLine(b, q) == Ok(d, SkipWs(b, k))
    requires Look(b, k) == ')' && GetTok(b, k).next == SkipWs(b, p) && Redirs(b, p) == Ok(got, end)
    ensures ParseExec(b, i) == Ok(Wrap(d, got), end)
  {
    LineSkip(b, q, SkipWs(b, q));
    TokenSkip(b, k, SkipWs(b, k));
    RedirsSkip(b, p, SkipWs(b, p));
  }

  lemma {:induction false} SimpleParse(b: string, i: nat, x: Simple, j: nat) returns (c: Cmd)
    requires SimpleEnd(b, i, x) == Some(j) && EndsSimple(b, j)
    ensures ParseExec(b, i) == Ok(c, SkipWs(b, j)) && Read(b, c) == SimpleTree(x)
    decreases x, 1
  {
    if x.Plain? { c := PlainParse(b, i, x.first, x.items, j); } else { c := GroupParse(b, i, x, j); }
  }

  lemma {:induction false} PipelineParse(b: string, i: nat, x: Pipeline, j: nat) returns (c: Cmd)
    requires PipelineEnd(b, i, x) == Some(j) && EndsPipeline(b, j)
    ensures ParsePipe(b, i) == Ok(c, SkipWs(b, j)) && Read(b, c) == PipelineTree(x)
    decreases x, 2
  {
    var k := SimpleEnd(b, i, x.cmd).value;
    if x.Single? {
      c := SimpleParse(b, i, x.cmd, k);
      SingleRound(b, i, c, j);
    } else {
      var q := Sign(b, k, x.gap, '|').value;
      SignToken(b, k, x.gap, '|', q);
      var d := SimpleParse(b, i, x.cmd, k);
      var e := PipelineParse(b, q, x.next, j);
      c := Pipe(d, e);
      PipeRound(b, i, d, k, q, e, SkipWs(b, j));
    }
  }

  lemma SingleRound(b: string, i: nat, c: Cmd, j: nat)
    requires i <= |b| && EndsPipeline(b, j) && ParseExec(b, i) == Ok(c, SkipWs(b, j))
    ensures ParsePipe(b, i) == Ok(c, SkipWs(b, j))
  {
    TokenSkip(b, j, SkipWs(b, j));
  }

  lemma PipeRound(b: string, i: nat, d: Cmd, k: nat, q: nat, e: Cmd, end: nat)
    requires i <= |b| && k < q <= |b| && ParseExec(b, i) == Ok(d, SkipWs(b, k)) && Look(b, k) == '|'
    requires GetTok(b, k).next == SkipWs(b, q) && ParsePipe(b, q) == Ok(e, end)
    ensures ParsePipe(b, i) == Ok(Pipe(d, e), end)
  {
    TokenSkip(b, k, SkipWs(b, k));
    PipeSkip(b, q, SkipWs(b, q));
  }

  lemma {:induction false} AmpsParse(b: string, i: nat, amps: seq<string>, j: nat, c: Cmd, t: Tree) returns (d: Cmd)
    requires AmpsEnd(b, i, amps) == Some(j) && Look(b, j) != '&' && Read(b, c) == t
    ensures Backs(b, c, i) == (d, SkipWs(b, j)) && Read(b, d) == Backed(t, |amps|)
    decreases |amps|
  {
    if amps == [] {
      d := c;
    } else {
      var q := Sign(b, i, amps[0], '&').value;
      SignToken(b, i, amps[0], '&', q);
      d := AmpsParse(b, q, amps[1..], j, Back(c), TBack(t));
      BackRound(b, i, q, c);
      BackedIn(t, |amps| - 1);
    }
  }

  lemma BackRound(b: string, i: nat, q: nat, c: Cmd)
    requires i < q <= |b| && Look(b, i) == '&' && GetTok(b, i).next == SkipWs(b, q)
    ensures Backs(b, c, i) == Backs(b, Back(c), q)
  {
    BacksSkip(b, Back(c), q, SkipWs(b, q));
  }

  lemma {:induction false} BackedIn(t: Tree, n: nat)
    ensures Backed(TBack(t), n) == Backed(t, n + 1)
  {
    if n > 0 { BackedIn(t, n - 1); }
  }

  lemma AmpsLook(b: string, m: nat, amps: seq<string>, k: nat)
    requires AmpsEnd(b, m, amps) == Some(k) && (EndsLine(b, k) || Look(b, k) == ';')
    ensures EndsPipeline(b, m)
  {
    if amps != [] { SignToken(b, m, amps[0], '&', Sign(b, m, amps[0], '&').value); }
  }

  /** A pipeline and its `&`s, which another line or the end of this one follows. */
  lemma {:induction false} JobParse(b: string, i: nat, pipe: Pipeline, amps: seq<string>, k: nat)
    returns (c: Cmd, d: Cmd)
    requires JobEnd(b, i, pipe, amps) == Some(k) && (EndsLine(b, k) || Look(b, k) == ';')
    ensures ParsePipe(b, i).Ok? && ParsePipe(b, i).value == c && Backs(b, c, ParsePipe(b, i).pos) == (d, SkipWs(b, k))
    ensures Read(b, d) == Backed(PipelineTree(pipe), |amps|)
    decreases pipe, 3
  {
    var m := PipelineEnd(b, i, pipe).value;
    AmpsLook(b, m, amps, k);
    c := PipelineParse(b, i, pipe, m);
    d := AmpsParse(b, m, amps, k, c, PipelineTree(pipe));
    BacksSkip(b, c, m, SkipWs(b, m));
  }

  /** A line that stands at `i` is read as meant, up to the blanks behind it. */
  lemma {:induction false} LineParse(b: string, i: nat, x: Line, j: nat) returns (c: Cmd)
    requires LineEnd(b, i, x) == Some(j) && EndsLine(b, j)
    ensures ParseLine(b, i) == Ok(c, SkipWs(b, j)) && Read(b, c) == LineTree(x)
    decreases x, 4
  {
    var k := JobEnd(b, i, x.pipe, x.amps).value;
    if x.Last? {
      var d;
      d, c := JobParse(b, i, x.pipe, x.amps, k);
      LastRound(b, i, d, c, k);
    } else {
      var q := Sign(b, k, x.gap, ';').value;
      SignToken(b, k, x.gap, ';', q);
      var d, e := JobParse(b, i, x.pipe, x.amps, k);
      var f := LineParse(b, q, x.rest, j);
      c := List(e, f);
      ListRound(b, i, d, e, k, q, f, SkipWs(b, j));
      ListReads(b, e, f, x);
    }
  }

  lemma ListReads(b: string, e: Cmd, f: Cmd, x: Line)
    requires x.More? && Read(b, e) == Backed(PipelineTree(x.pipe), |x.amps|) && Read(b, f) == LineTree(x.rest)
    ensures Read(b, List(e, f)) == LineTree(x)
  {
  }

  lemma LastRound(b: string, i: nat, d: Cmd, e: Cmd, k: nat)
    requires i <= |b| && EndsLine(b, k) && ParsePipe(b, i).Ok? && ParsePipe(b, i).value == d
    requires Backs(b, d, ParsePipe(b, i).pos) == (e, SkipWs(b, k))
    ensures ParseLine(b, i) == Ok(e, SkipWs(b, k))
  {
    TokenSkip(b, k, SkipWs(b, k));
  }

  lemma ListRound(b: string, i: nat, d: Cmd, e: Cmd, k: nat, q: nat, f: Cmd, end: nat)
    requires i <= |b| && k < q <= |b| && ParsePipe(b, i).Ok? && ParsePipe(b, i).value == d
    requires Backs(b, d, ParsePipe(b, i).pos) == (e, SkipWs(b, k)) && Look(b, k) == ';'
    requires GetTok(b, k).next == SkipWs(b, q) && ParseLine(b, q) == Ok(f, end)
    ensures ParseLine(b, i) == Ok(List(e, f), end)
  {
    TokenSkip(b, k, SkipWs(b, k));
    LineSkip(b, q, SkipWs(b, q));
  }

  // ----- standing somewhere and being the text there -----

  lemma Split(b: string, i: nat, x: string, y: string)
    ensures Stands(b, i, x + y) <==> Stands(b, i, x) && Stands(b, i + |x|, y)
  {
    var n := |x + y|;
    if i + n <= |b| {
      assert b[i..i + n] == b[i..i + |x|] + b[i + |x|..i + n];
      assert (x + y)[..|x|] == x && (x + y)[|x|..] == y;
      assert b[i..i + n][..|x|] == b[i..i + |x|] && b[i..i + n][|x|..] == b[i + |x|..i + n];
    }
  }

  /** `r` is where `text`, which is fit to be written, ends if it stands at `i`. */
  ghost predicate Is(b: string, i: nat, fit: bool, text: string, r: Option<nat>) {
    r == if fit && Stands(b, i, text) then Some(i + |text|) else None
  }

  /** One piece after another. */
  lemma Then(b: string, i: nat, fit: bool, text: string, r: Option<nat>, fit': bool, text': string, r': Option<nat>)
    requires Is(b, i, fit, text, r) && (r.Some? ==> Is(b, r.value, fit', text', r'))
    ensures Is(b, i, fit && fit', text + text', if r.Some? then r' else None)
  {
    Split(b, i, text, text');
  }

  lemma SignIs(b: string, i: nat, gap: string, c: char)
    ensures Is(b, i, Blank(gap), gap + [c], Sign(b, i, gap, c))
  {
    var q := i + |gap|;
    Split(b, i, gap, [c]);
    if q < |b| { assert b[q..q + 1] == [b[q]]; }
    if Stands(b, q, [c]) { CharAt(b, q, [c], 0); }
  }

  lemma ArrowIs(b: string, i: nat, a: Arrow)
    ensures Is(b, i, ArrowOk(a), ArrowText(a), ArrowEnd(b, i, a))
  {
    Split(b, i, a.gap + a.op + a.space, a.file);
    Split(b, i, a.gap + a.op, a.space);
    Split(b, i, a.gap, a.op);
  }

  lemma {:induction false} ArrowsIs(b: string, i: nat, arrows: seq<Arrow>)
    requires i <= |b|
    ensures Is(b, i, ArrowsOk(arrows), ArrowsText(arrows), ArrowsEnd(b, i, arrows))
    decreases |arrows|
  {
    if arrows != [] {
      var a, tail := arrows[0], arrows[1..];
      ArrowIs(b, i, a);
      var r := ArrowEnd(b, i, a);
      if r.Some? { ArrowsIs(b, r.value, tail); }
      Then(b, i, ArrowOk(a), ArrowText(a), r, ArrowsOk(tail), ArrowsText(tail),
           if r.Some? then ArrowsEnd(b, r.value, tail) else None);
      assert ArrowsOk(arrows) <==> ArrowOk(a) && ArrowsOk(tail);
    }
  }

  lemma ItemIs(b: string, i: nat, x: Item)
    ensures Is(b, i, ItemOk(x), ItemText(x), ItemEnd(b, i, x))
  {
    var q := Gap(b, i, x.gap);
    var e := if q.Some? then Name(b, q.value, x.word) else None;
    Then(b, i, Blank(x.gap), x.gap, q, IsWord(x.word), x.word, e);
    if e.Some? { ArrowsIs(b, e.value, x.arrows); }
    Then(b, i, Blank(x.gap) && IsWord(x.word), x.gap + x.word, e, ArrowsOk(x.arrows), ArrowsText(x.arrows),
         if e.Some? then ArrowsEnd(b, e.value, x.arrows) else None);
  }

  lemma {:induction false} ItemsIs(b: string, i: nat, items: seq<Item>, apart: bool)
    requires i <= |b|
    ensures Is(b, i, ItemsOk(items, apart), ItemsText(items), ItemsEnd(b, i, items, apart))
    decreases |items|
  {
    if items != [] {
      var x, tail := items[0], items[1..];
      ItemIs(b, i, x);
      var r := ItemEnd(b, i, x);
      if r.Some? { ItemsIs(b, r.value, tail, true); }
      Then(b, i, ItemOk(x), ItemText(x), r, ItemsOk(tail, true), ItemsText(tail),
           if r.Some? then ItemsEnd(b, r.value, tail, true) else None);
      ItemsOkCons(items, tail, apart);
    }
  }

  lemma ItemsOkCons(items: seq<Item>, tail: seq<Item>, apart: bool)
    requires items != [] && tail == items[1..]
    ensures ItemsOk(items, apart) <==> ItemOk(items[0]) && (apart ==> items[0].gap != "") && ItemsOk(tail, true)
  {
    if ItemsOk(items, apart) {
      forall k | 0 <= k < |tail| ensures ItemOk(tail[k]) && tail[k].gap != "" { assert tail[k] == items[k + 1]; }
    }
    if ItemOk(items[0]) && (apart ==> items[0].gap != "") && ItemsOk(tail, true) {
      forall k | 0 <= k < |items| ensures ItemOk(items[k]) && (apart || k > 0 ==> items[k].gap != "") {
        if k > 0 { assert items[k] == tail[k - 1]; }
      }
    }
  }

  lemma {:induction false} AmpsIs(b: string, i: nat, amps: seq<string>)
    requires i <= |b|
    ensures Is(b, i, AmpsOk(amps), AmpsText(amps), AmpsEnd(b, i, amps))
    decreases |amps|
  {
    if amps != [] {
      var gap, tail := amps[0], amps[1..];
      SignIs(b, i, gap, '&');
      var r := Sign(b, i, gap, '&');
      if r.Some? { AmpsIs(b, r.value, tail); }
      Then(b, i, Blank(gap), gap + "&", r, AmpsOk(tail), AmpsText(tail),
           if r.Some? then AmpsEnd(b, r.value, tail) else None);
      assert AmpsOk(amps) <==> Blank(gap) && AmpsOk(tail);
    }
  }

  lemma {:induction false} SimpleIs(b: string, i: nat, x: Simple)
    requires i <= |b|
    ensures Is(b, i, SimpleOk(x), SimpleText(x), SimpleEnd(b, i, x))
    decreases x, 1
  {
    if x.Plain? {
      ArrowsIs(b, i, x.first);
      var r := ArrowsEnd(b, i, x.first);
      if r.Some? { ItemsIs(b, r.value, x.items, x.first != []); }
      Then(b, i, ArrowsOk(x.first), ArrowsText(x.first), r, ItemsOk(x.items, x.first != []), ItemsText(x.items),
           if r.Some? then ItemsEnd(b, r.value, x.items, x.first != []) else None);
    } else {
      GroupIs(b, i, x);
    }
  }

  lemma {:induction false} GroupIs(b: string, i: nat, x: Simple)
    requires i <= |b| && x.Group?
    ensures Is(b, i, SimpleOk(x), SimpleText(x), SimpleEnd(b, i, x))
    decreases x, 0
  {
    SignIs(b, i, x.gap, '(');
    var q := Sign(b, i, x.gap, '(');
    if q.Some? { LineIs(b, q.value, x.line); }
    var k := if q.Some? then LineEnd(b, q.value, x.line) else None;
    Then(b, i, Blank(x.gap), x.gap + "(", q, LineOk(x.line), LineText(x.line), k);
    if k.Some? { SignIs(b, k.value, x.close, ')'); }
    var p := if k.Some? then Sign(b, k.value, x.close, ')') else None;
    Then(b, i, Blank(x.gap) && LineOk(x.line), x.gap + "(" + LineText(x.line), k, Blank(x.close), x.close + ")", p);
    if p.Some? { ArrowsIs(b, p.value, x.arrows); }
    var j := if p.Some? then ArrowsEnd(b, p.value, x.arrows) else None;
    var text := x.gap + "(" + LineText(x.line) + (x.close + ")");
    Then(b, i, Blank(x.gap) && LineOk(x.line) && Blank(x.close), text, p, ArrowsOk(x.arrows), ArrowsText(x.arrows), j);
    assert text == x.gap + "(" + LineText(x.line) + x.close + ")";
  }

  lemma {:induction false} PipelineIs(b: string, i: nat, x: Pipeline)
    requires i <= |b|
    ensures Is(b, i, PipelineOk(x), PipelineText(x), PipelineEnd(b, i, x))
    decreases x, 2
  {
    SimpleIs(b, i, x.cmd);
    var k := SimpleEnd(b, i, x.cmd);
    if x.Piped? {
      if k.Some? { SignIs(b, k.value, x.gap, '|'); }
      var q := if k.Some? then Sign(b, k.value, x.gap, '|') else None;
      Then(b, i, SimpleOk(x.cmd), SimpleText(x.cmd), k, Blank(x.gap), x.gap + "|", q);
      if q.Some? { PipelineIs(b, q.value, x.next); }
      var j := if q.Some? then PipelineEnd(b, q.value, x.next) else None;
      Then(b, i, SimpleOk(x.cmd) && Blank(x.gap), SimpleText(x.cmd) + (x.gap + "|"), q,
           PipelineOk(x.next), PipelineText(x.next), j);
      Joined(SimpleText(x.cmd), x.gap + "|", PipelineText(x.next));
    } else {
      assert SimpleText(x.cmd) + "" == SimpleText(x.cmd);
    }
  }

  lemma {:induction false} JobIs(b: string, i: nat, pipe: Pipeline, amps: seq<string>)
    requires i <= |b|
    ensures Is(b, i, PipelineOk(pipe) && AmpsOk(amps), PipelineText(pipe) + AmpsText(amps), JobEnd(b, i, pipe, amps))
    decreases pipe, 3
  {
    PipelineIs(b, i, pipe);
    var m := PipelineEnd(b, i, pipe);
    if m.Some? { AmpsIs(b, m.value, amps); }
    Then(b, i, PipelineOk(pipe), PipelineText(pipe), m, AmpsOk(amps), AmpsText(amps),
         if m.Some? then AmpsEnd(b, m.value, amps) else None);
  }

  /** A line ends at `j` by the function above if and only if it is well-formed and its text is there. */
  lemma {:induction false} LineIs(b: string, i: nat, x: Line)
    requires i <= |b|
    ensures Is(b, i, LineOk(x), LineText(x), LineEnd(b, i, x))
    decreases x, 4
  {
    var fit, text := PipelineOk(x.pipe) && AmpsOk(x.amps), PipelineText(x.pipe) + AmpsText(x.amps);
    JobIs(b, i, x.pipe, x.amps);
    var k := JobEnd(b, i, x.pipe, x.amps);
    if x.More? {
      if k.Some? { SignIs(b, k.value, x.gap, ';'); }
      var q := if k.Some? then Sign(b, k.value, x.gap, ';') else None;
      Then(b, i, fit, text, k, Blank(x.gap), x.gap + ";", q);
      if q.Some? { LineIs(b, q.value, x.rest); }
      var j := if q.Some? then LineEnd(b, q.value, x.rest) else None;
      Then(b, i, fit && Blank(x.gap), text + (x.gap + ";"), q, LineOk(x.rest), LineText(x.rest), j);
      Joined(text, x.gap + ";", LineText(x.rest));
    } else {
      assert text + "" == text;
    }
  }

  // ----- every command is read as meant -----

  /** `b` is the command `x` written out, and blanks. */
  ghost predicate Written(b: string, x: Line, gap: string) {
    LineOk(x) && Blank(gap) && b == LineText(x) + gap
  }

  /** parsecmd reads every command as it is meant, however it is written. */
  lemma ReadsAsMeant(b: string, x: Line, gap: string)
    requires Written(b, x, gap)
    ensures ParseCmd(b).Ok? && Read(b, ParseCmd(b).value) == LineTree(x)
  {
    var j := |LineText(x)|;
    assert b[0..0 + |b|] == b;
    Split(b, 0, LineText(x), gap);
    LineIs(b, 0, x);
    Skips(b, j, gap);
    var c := LineParse(b, 0, x, j);
    SkipAgain(b, j);
  }

  /** So what a line means does not depend on how it is taken apart. */
  lemma OneMeaning(b: string, x: Line, gap: string, y: Line, gap': string)
    requires Written(b, x, gap) && Written(b, y, gap')
    ensures LineTree(x) == LineTree(y)
  {
    ReadsAsMeant(b, x, gap);
    ReadsAsMeant(b, y, gap');
  }
}
