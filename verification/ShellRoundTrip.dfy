/**
 Every command can be written: printing it with every part in parentheses and parsing it again gives the
 command back.
 */
module ShellRoundTrip {
  import opened ShellParser
  import opened ShellSyntax
  import opened Options

  ghost predicate Printable(t: Tree) {
    match t
    case TExec(args) => |args| < MAXARGS && forall k :: 0 <= k < |args| ==> IsWord(args[k])
    case TRedir(c, f, fd) => Printable(c) && IsWord(f) && fd <= 1
    case TPipe(l, r) => Printable(l) && Printable(r)
    case TList(l, r) => Printable(l) && Printable(r)
    case TBack(c) => Printable(c)
  }

  function PrintArgs(args: seq<string>): string {
    if args == [] then ""
    else if |args| == 1 then args[0]
    else args[0] + " " + PrintArgs(args[1..])
  }

  function Paren(s: string): string { "(" + s + ")" }

  function Print(t: Tree): string {
    match t
    case TExec(args) => PrintArgs(args)
    case TRedir(c, f, fd) => Paren(Print(c)) + (if fd == 0 then "<" else ">") + f
    case TPipe(l, r) => Paren(Print(l)) + "|" + Paren(Print(r))
    case TList(l, r) => Paren(Print(l)) + ";" + Paren(Print(r))
    case TBack(c) => Paren(Print(c)) + "&"
  }

  // ----- the printed command as one that is written -----

  function Items(args: seq<string>, gap: string): seq<Item> {
    if args == [] then [] else [Item(gap, args[0], [])] + Items(args[1..], " ")
  }

  function InParens(t: Tree, arrows: seq<Arrow>): Simple
    decreases t, 1
  {
    Group("", Full(t), "", arrows)
  }

  function Full(t: Tree): Line
    decreases t, 0
  {
    match t
    case TExec(args) => Last(Single(Plain([], Items(args, ""))), [])
    case TRedir(c, f, fd) => Last(Single(InParens(c, [Arrow("", if fd == 0 then "<" else ">", "", f)])), [])
    case TPipe(l, r) => Last(Piped(InParens(l, []), "", Single(InParens(r, []))), [])
    case TList(l, r) => More(Single(InParens(l, [])), [], "", Last(Single(InParens(r, [])), []))
    case TBack(c) => Last(Single(InParens(c, [])), [""])
  }

  lemma {:induction false} ItemsPrint(args: seq<string>, gap: string)
    ensures ItemsText(Items(args, gap)) == if args == [] then "" else gap + PrintArgs(args)
    decreases |args|
  {
    if args != [] {
      var x, tail := Item(gap, args[0], []), Items(args[1..], " ");
      ItemsPrint(args[1..], " ");
      assert Items(args, gap)[1..] == tail;
      assert ItemText(x) == gap + args[0];
      if |args| == 1 {
        assert gap + args[0] + "" == gap + args[0];
      } else {
        Joined(gap, args[0], " " + PrintArgs(args[1..]));
        Joined(args[0], " ", PrintArgs(args[1..]));
      }
    }
  }

  lemma {:induction false} ItemsFit(args: seq<string>, gap: string, apart: bool)
    requires Blank(gap) && (apart ==> gap != "") && forall k :: 0 <= k < |args| ==> IsWord(args[k])
    ensures ItemsOk(Items(args, gap), apart) && |Items(args, gap)| == |args| && WordsOf(Items(args, gap)) == args
    ensures ArrowsOf(Items(args, gap)) == []
    decreases |args|
  {
    if args != [] {
      ItemsFit(args[1..], " ", true);
      var x, tail := Item(gap, args[0], []), Items(args[1..], " ");
      assert Items(args, gap) == [x] + tail && ([x] + tail)[1..] == tail;
      ItemsOkCons([x] + tail, tail, apart);
      assert WordsOf([x] + tail) == [x.word] + WordsOf(tail);
    }
  }

  lemma LastText(pipe: Pipeline, amps: seq<string>)
    ensures LineText(Last(pipe, amps)) == PipelineText(pipe) + AmpsText(amps)
  {
    assert PipelineText(pipe) + AmpsText(amps) + "" == PipelineText(pipe) + AmpsText(amps);
  }

  lemma SingleText(x: Simple)
    ensures PipelineText(Single(x)) == SimpleText(x) && LineText(Last(Single(x), [])) == SimpleText(x)
  {
    assert SimpleText(x) + "" == SimpleText(x);
    LastText(Single(x), []);
  }

  lemma ParensText(t: Tree, arrows: seq<Arrow>)
    requires LineText(Full(t)) == Print(t)
    ensures SimpleText(InParens(t, arrows)) == Paren(Print(t)) + ArrowsText(arrows)
    ensures arrows == [] ==> SimpleText(InParens(t, arrows)) == Paren(Print(t))
  {
    assert "" + "(" == "(" && "(" + Print(t) + "" == "(" + Print(t);
    assert Paren(Print(t)) + "" == Paren(Print(t));
  }

  lemma RedirText(c: Tree, f: string, fd: nat)
    requires LineText(Full(c)) == Print(c)
    ensures LineText(Full(TRedir(c, f, fd))) == Print(TRedir(c, f, fd))
  {
    var a := Arrow("", if fd == 0 then "<" else ">", "", f);
    assert [a][1..] == [] && ArrowsText([a]) == a.op + f;
    ParensText(c, [a]);
    SingleText(InParens(c, [a]));
    Joined(Paren(Print(c)), a.op, f);
  }

  lemma PipeText(l: Tree, r: Tree)
    requires LineText(Full(l)) == Print(l) && LineText(Full(r)) == Print(r)
    ensures LineText(Full(TPipe(l, r))) == Print(TPipe(l, r))
  {
    ParensText(l, []);
    ParensText(r, []);
    SingleText(InParens(r, []));
    var x := Piped(InParens(l, []), "", Single(InParens(r, [])));
    assert PipelineText(x) == Paren(Print(l)) + ("" + "|" + Paren(Print(r)));
    LastText(x, []);
  }

  lemma ListText(l: Tree, r: Tree)
    requires LineText(Full(l)) == Print(l) && LineText(Full(r)) == Print(r)
    ensures LineText(Full(TList(l, r))) == Print(TList(l, r))
  {
    ParensText(l, []);
    ParensText(r, []);
    SingleText(InParens(l, []));
    SingleText(InParens(r, []));
    assert LineText(Full(TList(l, r))) == Paren(Print(l)) + "" + ("" + ";" + Paren(Print(r)));
  }

  lemma BackText(c: Tree)
    requires LineText(Full(c)) == Print(c)
    ensures LineText(Full(TBack(c))) == Print(TBack(c))
  {
    ParensText(c, []);
    SingleText(InParens(c, []));
    assert [""][1..] == [] && AmpsText([""]) == "&";
    LastText(Single(InParens(c, [])), [""]);
  }

  lemma {:induction false} FullPrint(t: Tree)
    ensures LineText(Full(t)) == Print(t)
  {
    match t
    case TExec(args) =>
      ItemsPrint(args, "");
      SingleText(Plain([], Items(args, "")));
    case TRedir(c, f, fd) =>
      FullPrint(c);
      RedirText(c, f, fd);
    case TPipe(l, r) =>
      FullPrint(l);
      FullPrint(r);
      PipeText(l, r);
    case TList(l, r) =>
      FullPrint(l);
      FullPrint(r);
      ListText(l, r);
    case TBack(c) =>
      FullPrint(c);
      BackText(c);
  }

  /** A command in parentheses is well-formed and means what is in them. */
  ghost predicate Means(x: Simple, t: Tree) { SimpleOk(x) && SimpleTree(x) == t }

  lemma ParensMean(t: Tree)
    requires LineOk(Full(t)) && LineTree(Full(t)) == t
    ensures Means(InParens(t, []), t)
  {
  }

  lemma RedirMeans(c: Tree, f: string, fd: nat)
    requires LineOk(Full(c)) && LineTree(Full(c)) == c && IsWord(f) && fd <= 1
    ensures LineOk(Full(TRedir(c, f, fd))) && LineTree(Full(TRedir(c, f, fd))) == TRedir(c, f, fd)
  {
    var a := Arrow("", if fd == 0 then "<" else ">", "", f);
    assert [a][1..] == [] && Redirected(c, [a]) == TRedir(c, f, fd);
    SingleMeans(InParens(c, [a]), TRedir(c, f, fd), []);
  }

  lemma SingleMeans(x: Simple, t: Tree, amps: seq<string>)
    requires Means(x, t) && AmpsOk(amps)
    ensures LineOk(Last(Single(x), amps)) && LineTree(Last(Single(x), amps)) == Backed(t, |amps|)
  {
    assert PipelineTree(Single(x)) == t;
  }

  lemma PipeMeans(x: Simple, t: Tree, y: Simple, u: Tree)
    requires Means(x, t) && Means(y, u)
    ensures var z := Last(Piped(x, "", Single(y)), []); LineOk(z) && LineTree(z) == TPipe(t, u)
  {
    assert PipelineOk(Single(y)) && PipelineTree(Single(y)) == u;
    assert PipelineTree(Piped(x, "", Single(y))) == TPipe(t, u);
  }

  lemma ListMeans(x: Simple, t: Tree, y: Simple, u: Tree)
    requires Means(x, t) && Means(y, u)
    ensures var z := More(Single(x), [], "", Last(Single(y), [])); LineOk(z) && LineTree(z) == TList(t, u)
  {
    SingleMeans(y, u, []);
    assert PipelineOk(Single(x)) && PipelineTree(Single(x)) == t;
  }

  lemma {:induction false} FullMeans(t: Tree)
    requires Printable(t)
    ensures LineOk(Full(t)) && LineTree(Full(t)) == t
  {
    match t
    case TExec(args) =>
      ItemsFit(args, "", false);
      SingleMeans(Plain([], Items(args, "")), t, []);
    case TRedir(c, f, fd) =>
      FullMeans(c);
      RedirMeans(c, f, fd);
    case TPipe(l, r) =>
      FullMeans(l);
      FullMeans(r);
      ParensMean(l);
      ParensMean(r);
      PipeMeans(InParens(l, []), l, InParens(r, []), r);
    case TList(l, r) =>
      FullMeans(l);
      FullMeans(r);
      ParensMean(l);
      ParensMean(r);
      ListMeans(InParens(l, []), l, InParens(r, []), r);
    case TBack(c) =>
      FullMeans(c);
      ParensMean(c);
      SingleMeans(InParens(c, []), c, [""]);
      assert Backed(c, 1) == t;
  }

  /** A printed command is read back wherever it stands in a line, up to a closing parenthesis or the end. */
  lemma LineTrip(t: Tree, b: string, i: nat, j: nat) returns (c: Cmd)
    requires Printable(t) && Stands(b, i, Print(t)) && j == i + |Print(t)| && EndsLine(b, j)
    ensures ParseLine(b, i) == Ok(c, SkipWs(b, j)) && Read(b, c) == t
  {
    FullPrint(t);
    FullMeans(t);
    LineIs(b, i, Full(t));
    c := LineParse(b, i, Full(t), j);
  }

  /** parsecmd of the printed form of a command gives the command back. */
  lemma RoundTrip(t: Tree)
    requires Printable(t)
    ensures ParseCmd(Print(t)).Ok? && Read(Print(t), ParseCmd(Print(t)).value) == t
  {
    FullPrint(t);
    FullMeans(t);
    assert Print(t) == LineText(Full(t)) + "";
    ReadsAsMeant(Print(t), Full(t), "");
  }
}
