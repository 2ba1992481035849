/**
 The shell's parser as it runs: a cursor moved over the line, and nulterminate overwriting the line.
 */
module Shell {
  import opened ShellParser
  import opened ShellWords

  // ----- skipping blanks first changes nothing -----

  lemma {:induction false} SkipTwice(b: string, i: nat)
    requires i <= |b|
    ensures SkipWs(b, SkipWs(b, i)) == SkipWs(b, i)
  {
    var j := SkipWs(b, i);
    assert SkipWs(b, j) == j;
  }

  lemma SkipRedirs(b: string, i: nat)
    requires i <= |b|
    ensures Redirs(b, SkipWs(b, i)) == Redirs(b, i)
  {
    SkipLook(b, i);
  }

  lemma SkipArgs(b: string, i: nat, argv: seq<Span>, rs: seq<Redirect>)
    requires i <= |b|
    ensures Args(b, SkipWs(b, i), argv, rs) == Args(b, i, argv, rs)
  {
    SkipTwice(b, i);
  }

  lemma SkipBacks(b: string, c: Cmd, i: nat)
    requires i <= |b|
    ensures Backs(b, c, SkipWs(b, i)) == Backs(b, c, i)
  {
    SkipTwice(b, i);
  }

  /** `rs` read before the redirections of `r`. */
  function Before(rs: seq<Redirect>, r: Result<seq<Redirect>>): Result<seq<Redirect>> {
    match r
    case Fail(m) => Fail(m)
    case Ok(more, p) => Ok(rs + more, p)
  }

  lemma RedirsStep(b: string, i: nat, rs: seq<Redirect>, op: Token, file: Token)
    requires i <= |b| && IsRedirect(Look(b, i)) && op == GetTok(b, i) && file == GetTok(b, op.next)
    ensures Before(rs, Redirs(b, i)) ==
      if !file.tok.Word? then Fail("missing file for redirection")
      else Before(rs + [Redirect(Span(file.q, file.e), if op.tok == Sym('<') then 0 else 1)], Redirs(b, file.next))
  {
    if file.tok.Word? {
      var r := Redirect(Span(file.q, file.e), if op.tok == Sym('<') then 0 else 1);
      match Redirs(b, file.next)
      case Fail(m) =>
      case Ok(more, p) => assert rs + ([r] + more) == rs + [r] + more;
    }
  }

  lemma RedirsDone(b: string, i: nat, rs: seq<Redirect>)
    requires i <= |b| && !IsRedirect(Look(b, i))
    ensures Before(rs, Redirs(b, i)) == Ok(rs, SkipWs(b, i))
  {
    var none: seq<Redirect> := [];
    assert rs + none == rs;
  }

  // ----- the grammar one step at a time -----

  function Joined(r: Result<Cmd>, c: Cmd, bar: bool): Result<Cmd> {
    match r
    case Fail(m) => Fail(m)
    case Ok(d, p) => Ok(if bar then Pipe(c, d) else List(c, d), p)
  }

  function Wrapped(c: Cmd, r: Result<seq<Redirect>>): Result<Cmd> {
    match r
    case Fail(m) => Fail(m)
    case Ok(rs, p) => Ok(Wrap(c, rs), p)
  }

  lemma PipeMore(b: string, i: nat, c: Cmd, p: nat, next: nat)
    requires i <= |b| && p <= |b| && ParseExec(b, i) == Ok(c, p) && Look(b, p) == '|' && next == GetTok(b, p).next
    ensures ParsePipe(b, i) == Joined(ParsePipe(b, next), c, true)
  {
  }

  lemma BlockMore(b: string, i: nat, c: Cmd, p: nat, next: nat)
    requires i <= |b| && p <= |b| && Look(b, i) == '(' && ParseLine(b, GetTok(b, i).next) == Ok(c, p)
    requires Look(b, p) == ')' && next == GetTok(b, p).next
    ensures ParseBlock(b, i) == Wrapped(c, Redirs(b, next))
  {
  }

  lemma ExecBlock(b: string, i: nat)
    requires i <= |b| && Look(b, i) == '('
    ensures Look(b, SkipWs(b, i)) == '(' && ParseExec(b, i) == ParseBlock(b, SkipWs(b, i))
  {
    SkipLook(b, i);
  }

  lemma ExecArgs(b: string, i: nat)
    requires i <= |b| && Look(b, i) != '('
    ensures ParseExec(b, i) ==
      match Redirs(b, SkipWs(b, i)) case Fail(m) => Fail(m) case Ok(rs, p) => Args(b, p, [], rs)
  {
    SkipRedirs(b, i);
  }

  lemma SkipLook(b: string, i: nat)
    requires i <= |b|
    ensures var j := SkipWs(b, i); SkipWs(b, j) == j && Look(b, j) == Look(b, i) && GetTok(b, j) == GetTok(b, i)
  {
  }

  lemma InRedirect(c: char)
    ensures c in "<>" <==> IsRedirect(c)
  {
  }

  lemma InEndsArgs(c: char)
    ensures c in "|)&;" <==> EndsArgs(c)
  {
  }

  class Parser {
    const buf: array<char>
    const es: nat
    var s: nat

    /** The buffer holds the line `b` and its NUL, and the cursor is in it. */
    ghost predicate Over(b: string)
      reads this, buf
    {
      && s <= es == |b| && buf.Length == es + 1
      && buf[..] == b + ['\0'] && '\0' !in b
    }

    constructor (line: string)
      requires '\0' !in line
      ensures Over(line) && s == 0 && fresh(buf)
    {
      var a := new char[|line| + 1](i requires 0 <= i <= |line| => if i < |line| then line[i] else '\0');
      buf := a;
      es := |line|;
      s := 0;
      new;
      assert buf[..] == line + ['\0'];
    }

    method SkipBlanks(ghost b: string)
      requires Over(b)
      modifies `s
      ensures Over(b) && s == SkipWs(b, old(s))
    {
      while s < es && IsWs(buf[s])
        invariant Over(b) && SkipWs(b, s) == SkipWs(b, old(s))
        decreases es - s
      {
        assert b[s] == buf[..][s];
        s := s + 1;
      }
      assert s < es ==> b[s] == buf[..][s];
    }

    /** gettoken */
    method GetToken(ghost b: string) returns (tok: Tok, q: nat, eq: nat)
      requires Over(b)
      modifies `s
      ensures Over(b) && GetTok(b, old(s)) == Token(tok, q, eq, s)
    {
      SkipBlanks(b);
      q := s;
      assert buf[..][s] == buf[s];
      var c := buf[s];
      if c == '\0' {
        tok := End;
      } else if c == '>' {
        s := s + 1;
        assert buf[..][s] == buf[s];
        if buf[s] == '>' {
          tok := Append;
          s := s + 1;
        } else {
          tok := Sym('>');
        }
      } else if IsSym(c) {
        tok := Sym(c);
        s := s + 1;
      } else {
        tok := Word;
        while s < es && IsWordChar(buf[s])
          invariant Over(b) && q <= s && WordEnd(b, s) == WordEnd(b, q)
          decreases es - s
        {
          assert b[s] == buf[..][s];
          s := s + 1;
        }
        assert s < es ==> b[s] == buf[..][s];
      }
      eq := s;
      SkipBlanks(b);
    }

    /** peek */
    method Peek(ghost b: string, toks: string) returns (r: bool)
      requires Over(b) && '\0' !in toks
      modifies `s
      ensures Over(b) && s == SkipWs(b, old(s)) && Look(b, s) == Look(b, old(s))
      ensures r == (Look(b, s) in toks)
    {
      SkipBlanks(b);
      assert buf[..][s] == buf[s];
      r := buf[s] != '\0' && buf[s] in toks;
    }

    method ParseRedirs(ghost b: string) returns (r: Result<seq<Redirect>>)
      requires Over(b)
      modifies `s
      ensures Over(b) && r == Redirs(b, old(s)) && (r.Ok? ==> s == r.pos)
    {
      var rs: seq<Redirect> := [];
      SkipRedirs(b, s);
      var more := Peek(b, "<>");
      InRedirect(Look(b, s));
      RedirsStart(b, s);
      while more
        invariant Over(b) && more == IsRedirect(Look(b, s)) && SkipWs(b, s) == s
        invariant Redirs(b, old(s)) == Before(rs, Redirs(b, s))
        decreases es - s
      {
        ghost var i := s;
        var tok, _, _ := GetToken(b);
        ghost var next := s;
        var kind, q, eq := GetToken(b);
        RedirsStep(b, i, rs, GetTok(b, i), GetTok(b, next));
        if kind != Word {
          return Fail("missing file for redirection");
        }
        rs := rs + [Redirect(Span(q, eq), if tok == Sym('<') then 0 else 1)];
        SkipRedirs(b, s);
        more := Peek(b, "<>");
        InRedirect(Look(b, s));
      }
      RedirsDone(b, s, rs);
      r := Ok(rs, s);
    }

    static lemma RedirsStart(b: string, i: nat)
      requires i <= |b|
      ensures Before([], Redirs(b, i)) == Redirs(b, i)
    {
      match Redirs(b, i)
      case Fail(m) =>
      case Ok(v, p) => assert [] + v == v;
    }

    method ParseLine(ghost b: string) returns (r: Result<Cmd>)
      requires Over(b)
      modifies `s
      ensures Over(b) && r == ShellParser.ParseLine(b, old(s)) && (r.Ok? ==> s == r.pos)
      decreases |b| - s, 3
    {
      ghost var start := s;
      r := ParsePipe(b);
      if r.Fail? { return; }
      var c := r.value;
      ghost var c0, p0 := c, s;
      SkipBacks(b, c, s);
      var more := Peek(b, "&");
      while more
        invariant Over(b) && start <= s && SkipWs(b, s) == s && more == (Look(b, s) == '&')
        invariant Backs(b, c, s) == Backs(b, c0, p0)
        decreases es - s
      {
        var _, _, _ := GetToken(b);
        c := Back(c);
        SkipBacks(b, c, s);
        more := Peek(b, "&");
      }
      var semi := Peek(b, ";");
      if semi {
        var _, _, _ := GetToken(b);
        var rest := ParseLine(b);
        r := Joined(rest, c, false);
      } else {
        r := Ok(c, s);
      }
    }

    method ParsePipe(ghost b: string) returns (r: Result<Cmd>)
      requires Over(b)
      modifies `s
      ensures Over(b) && r == ShellParser.ParsePipe(b, old(s)) && (r.Ok? ==> s == r.pos)
      decreases |b| - s, 2
    {
      r := ParseExec(b);
      if r.Fail? { return; }
      var c := r.value;
      ghost var p := s;
      SkipLook(b, s);
      var bar := Peek(b, "|");
      if bar {
        var _, _, _ := GetToken(b);
        PipeMore(b, old(s), c, p, s);
        var rest := ParsePipe(b);
        r := Joined(rest, c, true);
      } else {
        r := Ok(c, s);
      }
    }

    method ParseBlock(ghost b: string) returns (r: Result<Cmd>)
      requires Over(b) && Look(b, s) == '('
      modifies `s
      ensures Over(b) && r == ShellParser.ParseBlock(b, old(s)) && (r.Ok? ==> s == r.pos)
      decreases |b| - s, 0
    {
      var _, _, _ := GetToken(b);
      r := ParseLine(b);
      if r.Fail? { return; }
      var c := r.value;
      ghost var p := s;
      SkipLook(b, s);
      var close := Peek(b, ")");
      if !close { return Fail("syntax - missing )"); }
      var _, _, _ := GetToken(b);
      BlockMore(b, old(s), c, p, s);
      var rs := ParseRedirs(b);
      r := Wrapped(c, rs);
    }

    method ParseExec(ghost b: string) returns (r: Result<Cmd>)
      requires Over(b)
      modifies `s
      ensures Over(b) && r == ShellParser.ParseExec(b, old(s)) && (r.Ok? ==> s == r.pos)
      decreases |b| - s, 1
    {
      var open := Peek(b, "(");
      if open {
        ExecBlock(b, old(s));
        r := ParseBlock(b);
        return;
      }
      ExecArgs(b, old(s));
      var first := ParseRedirs(b);
      if first.Fail? { return Fail(first.msg); }
      r := ParseArgs(b, first.value);
    }

    /** parseexec's loop */
    method ParseArgs(ghost b: string, first: seq<Redirect>) returns (r: Result<Cmd>)
      requires Over(b)
      modifies `s
      ensures Over(b) && r == Args(b, old(s), [], first) && (r.Ok? ==> s == r.pos)
    {
      var rs := first;
      var argv: seq<Span> := [];
      SkipArgs(b, s, argv, rs);
      var stop := Peek(b, "|)&;");
      InEndsArgs(Look(b, s));
      while !stop
        invariant Over(b) && old(s) <= s && SkipWs(b, s) == s && stop == EndsArgs(Look(b, s)) && |argv| < MAXARGS
        invariant Args(b, s, argv, rs) == Args(b, old(s), [], first)
        decreases es - s
      {
        var tok, q, eq := GetToken(b);
        if tok == End {
          return Ok(Wrap(Exec(argv), rs), s);
        }
        if tok != Word {
          return Fail("syntax");
        }
        argv := argv + [Span(q, eq)];
        if |argv| >= MAXARGS {
          return Fail("too many args");
        }
        var more := ParseRedirs(b);
        if more.Fail? { return Fail(more.msg); }
        rs := rs + more.value;
        SkipArgs(b, s, argv, rs);
        stop := Peek(b, "|)&;");
        InEndsArgs(Look(b, s));
      }
      r := Ok(Wrap(Exec(argv), rs), s);
    }

    /** nulterminate */
    method NulTerminate(c: Cmd)
      requires forall t: Span :: Has(c, t) ==> t.e < buf.Length
      modifies buf
      ensures buf[..] == Terminated(old(buf[..]), c)
      decreases c
    {
      match c
      case Exec(argv) =>
        var i := 0;
        assert argv[..0] == [];
        while i < |argv|
          invariant i <= |argv| && buf[..] == CutAll(old(buf[..]), argv[..i])
        {
          assert Has(c, argv[i]);
          assert argv[..i + 1][..i] == argv[..i];
          buf[argv[i].e] := '\0';
          i := i + 1;
        }
        assert argv[..i] == argv;
      case Redir(d, f, fd) =>
        assert Has(c, f);
        assert forall t: Span :: Has(d, t) ==> Has(c, t);
        NulTerminate(d);
        buf[f.e] := '\0';
      case Pipe(l, r) =>
        assert forall t: Span :: Has(l, t) ==> Has(c, t);
        assert forall t: Span :: Has(r, t) ==> Has(c, t);
        NulTerminate(l);
        NulTerminate(r);
      case List(l, r) =>
        assert forall t: Span :: Has(l, t) ==> Has(c, t);
        assert forall t: Span :: Has(r, t) ==> Has(c, t);
        NulTerminate(l);
        NulTerminate(r);
      case Back(d) =>
        assert forall t: Span :: Has(d, t) ==> Has(c, t);
        NulTerminate(d);
    }

    /** parsecmd: afterwards every word of the command stands in the buffer as a C string. */
    method ParseCmd(ghost b: string) returns (r: Result<Cmd>)
      requires Over(b) && s == 0
      modifies `s, buf
      ensures r == ShellParser.ParseCmd(b)
      ensures buf[..] == if r.Ok? then Terminated(b + ['\0'], r.value) else b + ['\0']
      ensures r.Ok? ==> forall t: Span :: Has(r.value, t) ==> t.q < t.e <= |b| && CString(buf[..], t.q) == b[t.q..t.e]
    {
      r := ParseLine(b);
      if r.Fail? { return; }
      SkipBlanks(b);
      if s != es { return Fail("syntax"); }
      r := Ok(r.value, s);
      forall t: Span | Has(r.value, t)
        ensures t.q < t.e <= |b| && CString(Terminated(b + ['\0'], r.value), t.q) == b[t.q..t.e]
      {
        TokensReadBack(b, t);
      }
      NulTerminate(r.value);
    }
  }
}
