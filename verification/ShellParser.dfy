/**
 The shell's recursive-descent parser. The input is a C string without its NUL; a position is an index
 into it, the one past the end standing for the NUL. Where the source panics the parser fails.
 */
module ShellParser {

  const MAXARGS := 10

  predicate IsWs(c: char) { c == ' ' || c == '\t' || c == '\r' || c == '\n' || c == '\U{000B}' }

  predicate IsSym(c: char) {
    c == '<' || c == '|' || c == '>' || c == '&' || c == ';' || c == '(' || c == ')'
  }

  predicate IsWordChar(c: char) { !IsWs(c) && !IsSym(c) }

  /** A word of the input: the pointers q and eq the source records. */
  datatype Span = Span(q: nat, e: nat)

  /** A redirection; `>` and `>>` open the file in the same mode on descriptor 1. */
  datatype Redirect = Redirect(file: Span, fd: nat)

  datatype Cmd =
    | Exec(argv: seq<Span>)
    | Redir(cmd: Cmd, file: Span, fd: nat)
    | Pipe(left: Cmd, right: Cmd)
    | List(left: Cmd, right: Cmd)
    | Back(cmd: Cmd)

  datatype Tok = End | Sym(c: char) | Append | Word

  datatype Token = Token(tok: Tok, q: nat, e: nat, next: nat)

  datatype Result<T> = Ok(value: T, pos: nat) | Fail(msg: string)

  // ----- tokens -----

  function SkipWs(b: string, i: nat): (j: nat)
    requires i <= |b|
    ensures i <= j <= |b|
    ensures j < |b| ==> !IsWs(b[j])
    ensures i < |b| && !IsWs(b[i]) ==> j == i
    decreases |b| - i
  {
    if i < |b| && IsWs(b[i]) then SkipWs(b, i + 1) else i
  }

  function WordEnd(b: string, i: nat): (j: nat)
    requires i <= |b|
    ensures i <= j <= |b|
    ensures j < |b| ==> !IsWordChar(b[j])
    ensures forall k :: i <= k < j ==> IsWordChar(b[k])
    ensures i < |b| && IsWordChar(b[i]) ==> i < j
    decreases |b| - i
  {
    if i < |b| && IsWordChar(b[i]) then WordEnd(b, i + 1) else i
  }

  /** gettoken */
  function GetTok(b: string, i: nat): (t: Token)
    requires i <= |b|
    ensures i <= t.q <= t.e <= t.next <= |b|
    ensures t.tok.End? <==> t.q == |b|
    ensures !t.tok.End? ==> t.q < t.e
    ensures t.q == SkipWs(b, i)
  {
    var q := SkipWs(b, i);
    if q == |b| then Token(End, q, q, q)
    else
      var (tok, e) :=
        if b[q] == '>' then (if q + 1 < |b| && b[q + 1] == '>' then (Append, q + 2) else (Sym('>'), q + 1))
        else if IsSym(b[q]) then (Sym(b[q]), q + 1)
        else (Word, WordEnd(b, q));
      Token(tok, q, e, SkipWs(b, e))
  }

  /** What peek looks at: the next character other than blanks, NUL at the end. */
  function Look(b: string, i: nat): char
    requires i <= |b|
  {
    var j := SkipWs(b, i);
    if j < |b| then b[j] else '\0'
  }

  /** The characters peek is asked for: before a redirection, and after the words of a command. */
  predicate IsRedirect(c: char) { c == '<' || c == '>' }

  predicate EndsArgs(c: char) { c == '|' || c == ')' || c == '&' || c == ';' }

  // ----- the grammar -----

  /** parseredirs: the redirections at `i`, first one first. */
  function Redirs(b: string, i: nat): (r: Result<seq<Redirect>>)
    requires i <= |b|
    ensures r.Ok? ==> i <= r.pos <= |b|
    decreases |b| - i
  {
    if !IsRedirect(Look(b, i)) then Ok([], SkipWs(b, i))
    else
      var op := GetTok(b, i);
      var file := GetTok(b, op.next);
      if !file.tok.Word? then Fail("missing file for redirection")
      else
        match Redirs(b, file.next)
        case Fail(m) => Fail(m)
        case Ok(rs, p) => Ok([Redirect(Span(file.q, file.e), if op.tok == Sym('<') then 0 else 1)] + rs, p)
  }

  /** redircmd applied in the order the redirections were read. */
  function Wrap(c: Cmd, rs: seq<Redirect>): Cmd
    decreases |rs|
  {
    if rs == [] then c else Wrap(Redir(c, rs[0].file, rs[0].fd), rs[1..])
  }

  /** parseexec's loop: words and redirections up to one of `|)&;` or the end. */
  function Args(b: string, i: nat, argv: seq<Span>, rs: seq<Redirect>): (r: Result<Cmd>)
    requires i <= |b|
    ensures r.Ok? ==> i <= r.pos <= |b|
    decreases |b| - i
  {
    if EndsArgs(Look(b, i)) then Ok(Wrap(Exec(argv), rs), SkipWs(b, i))
    else
      var t := GetTok(b, i);
      if t.tok.End? then Ok(Wrap(Exec(argv), rs), t.next)
      else if !t.tok.Word? then Fail("syntax")
      else if |argv| + 1 >= MAXARGS then Fail("too many args")
      else
        match Redirs(b, t.next)
        case Fail(m) => Fail(m)
        case Ok(more, p) => Args(b, p, argv + [Span(t.q, t.e)], rs + more)
  }

  /** parseline's loop over `&`. */
  function Backs(b: string, c: Cmd, i: nat): (r: (Cmd, nat))
    requires i <= |b|
    ensures i <= r.1 <= |b|
    decreases |b| - i
  {
    if Look(b, i) == '&' then Backs(b, Back(c), GetTok(b, i).next) else (c, SkipWs(b, i))
  }

  function ParseLine(b: string, i: nat): (r: Result<Cmd>)
    requires i <= |b|
    ensures r.Ok? ==> i <= r.pos <= |b|
    decreases |b| - i, 3
  {
    match ParsePipe(b, i)
    case Fail(m) => Fail(m)
    case Ok(c, p) =>
      var (c', p') := Backs(b, c, p);
      if Look(b, p') == ';' then
        match ParseLine(b, GetTok(b, p').next)
        case Fail(m) => Fail(m)
        case Ok(d, p'') => Ok(List(c', d), p'')
      else Ok(c', p')
  }

  function ParsePipe(b: string, i: nat): (r: Result<Cmd>)
    requires i <= |b|
    ensures r.Ok? ==> i <= r.pos <= |b|
    decreases |b| - i, 2
  {
    match ParseExec(b, i)
    case Fail(m) => Fail(m)
    case Ok(c, p) =>
      if Look(b, p) == '|' then
        match ParsePipe(b, GetTok(b, p).next)
        case Fail(m) => Fail(m)
        case Ok(d, p') => Ok(Pipe(c, d), p')
      else Ok(c, SkipWs(b, p))
  }

  function ParseExec(b: string, i: nat): (r: Result<Cmd>)
    requires i <= |b|
    ensures r.Ok? ==> i <= r.pos <= |b|
    decreases |b| - i, 1
  {
    if Look(b, i) == '(' then ParseBlock(b, i)
    else
      match Redirs(b, i)
      case Fail(m) => Fail(m)
      case Ok(rs, p) => Args(b, p, [], rs)
  }

  function ParseBlock(b: string, i: nat): (r: Result<Cmd>)
    requires i <= |b| && Look(b, i) == '('
    ensures r.Ok? ==> i <= r.pos <= |b|
    decreases |b| - i, 0
  {
    match ParseLine(b, GetTok(b, i).next)
    case Fail(m) => Fail(m)
    case Ok(c, p) =>
      if Look(b, p) != ')' then Fail("syntax - missing )")
      else
        match Redirs(b, GetTok(b, p).next)
        case Fail(m) => Fail(m)
        case Ok(rs, p') => Ok(Wrap(c, rs), p')
  }

  /** parsecmd, without the NUL termination. */
  function ParseCmd(b: string): (r: Result<Cmd>)
  {
    match ParseLine(b, 0)
    case Fail(m) => Fail(m)
    case Ok(c, p) => if SkipWs(b, p) != |b| then Fail("syntax") else Ok(c, |b|)
  }
}
