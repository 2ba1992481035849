/**
 The regular-expression matcher of grep: literal characters, `.`, `c*`, a leading `^` and a
 final `$`. C strings are sequences without the terminating NUL.
 */
module Grep {

  // ----- what a pattern means -----

  /** The elements of a pattern; `$` is special only at the very end. */
  datatype Item = Lit(c: char) | Star(c: char) | End

  function Items(re: string): (items: seq<Item>)
  {
    if re == "" then []
    else if |re| >= 2 && re[1] == '*' then [Star(re[0])] + Items(re[2..])
    else if re == "$" then [End]
    else [Lit(re[0])] + Items(re[1..])
  }

  predicate CharFits(c: char, x: char) {
    c == '.' || c == x
  }

  ghost predicate PieceFits(item: Item, piece: string) {
    match item
    case Lit(c) => |piece| == 1 && CharFits(c, piece[0])
    case Star(c) => forall i :: 0 <= i < |piece| ==> CharFits(c, piece[i])
    case End => piece == ""
  }

  function Concat(pieces: seq<string>): string {
    if pieces == [] then "" else pieces[0] + Concat(pieces[1..])
  }

  ghost predicate AnchoredAtEnd(items: seq<Item>) {
    items != [] && items[|items| - 1].End?
  }

  /** One piece of text per element, together a prefix of `text`, the whole of it if the pattern ends in `$`. */
  ghost predicate Fits(items: seq<Item>, pieces: seq<string>, text: string) {
    && |pieces| == |items|
    && (forall i :: 0 <= i < |items| ==> PieceFits(items[i], pieces[i]))
    && Concat(pieces) <= text
    && (AnchoredAtEnd(items) ==> Concat(pieces) == text)
  }

  /** A match of the pattern at the beginning of `text`. */
  ghost predicate MatchesHere(re: string, text: string) {
    exists pieces :: Fits(Items(re), pieces, text)
  }

  /** A match somewhere in `text`, or at its beginning if the pattern starts with `^`. */
  ghost predicate Matches(re: string, text: string) {
    if re != "" && re[0] == '^' then MatchesHere(re[1..], text)
    else exists i :: 0 <= i <= |text| && MatchesHere(re, text[i..])
  }

  // ----- one element at a time -----

  lemma HereEmpty(text: string)
    ensures MatchesHere("", text)
  {
    assert Fits(Items(""), [], text);
  }

  lemma HereEnd(text: string)
    ensures MatchesHere("$", text) <==> text == ""
  {
    assert Items("$") == [End];
    if pieces :| Fits([End], pieces, text) {
      assert pieces[1..] == [] && Concat(pieces) == "";
    }
    if text == "" {
      assert [""][1..] == [];
      assert Fits([End], [""], "");
    }
  }

  lemma FitsTail(items: seq<Item>, pieces: seq<string>, text: string)
    requires items != [] && !items[0].End?
    ensures Fits(items, pieces, text) <==>
      && |pieces| == |items| && PieceFits(items[0], pieces[0])
      && |pieces[0]| <= |text| && pieces[0] == text[..|pieces[0]|]
      && Fits(items[1..], pieces[1..], text[|pieces[0]|..])
  {
    if |pieces| == |items| {
      var k, rest := |pieces[0]|, Concat(pieces[1..]);
      assert Concat(pieces) == pieces[0] + rest;
      if Concat(pieces) <= text {
        assert text[..k] == pieces[0];
        assert rest <= text[k..];
      }
      if k <= |text| && pieces[0] == text[..k] {
        assert text == pieces[0] + text[k..];
        assert rest <= text[k..] ==> Concat(pieces) <= text;
        assert rest == text[k..] <==> Concat(pieces) == text;
      }
      assert AnchoredAtEnd(items) <==> AnchoredAtEnd(items[1..]);
      if Fits(items[1..], pieces[1..], if k <= |text| then text[k..] else "") && PieceFits(items[0], pieces[0]) {
        forall i | 0 <= i < |items| ensures PieceFits(items[i], pieces[i]) {
          if i > 0 { assert items[i] == items[1..][i - 1] && pieces[i] == pieces[1..][i - 1]; }
        }
      }
    }
  }

  lemma HereLit(re: string, text: string)
    requires re != "" && !(|re| >= 2 && re[1] == '*') && re != "$"
    ensures MatchesHere(re, text) <==> text != "" && CharFits(re[0], text[0]) && MatchesHere(re[1..], text[1..])
  {
    var items := Items(re);
    assert items == [Lit(re[0])] + Items(re[1..]) && items[1..] == Items(re[1..]);
    if pieces :| Fits(items, pieces, text) {
      FitsTail(items, pieces, text);
      assert Fits(Items(re[1..]), pieces[1..], text[1..]);
    }
    if text != "" && CharFits(re[0], text[0]) {
      if pieces :| Fits(Items(re[1..]), pieces, text[1..]) {
        var all := [text[..1]] + pieces;
        assert all[1..] == pieces;
        FitsTail(items, all, text);
      }
    }
  }

  /** The first `k` characters of `text` fit `c`. */
  ghost predicate Run(c: char, text: string, k: nat) {
    k <= |text| && forall i :: 0 <= i < k ==> CharFits(c, text[i])
  }

  ghost predicate StarMatches(c: char, re: string, text: string) {
    exists k: nat :: Run(c, text, k) && MatchesHere(re, text[k..])
  }

  lemma HereStar(re: string, text: string)
    requires |re| >= 2 && re[1] == '*'
    ensures MatchesHere(re, text) <==> StarMatches(re[0], re[2..], text)
  {
    var items := Items(re);
    assert items == [Star(re[0])] + Items(re[2..]) && items[1..] == Items(re[2..]);
    if pieces :| Fits(items, pieces, text) {
      FitsTail(items, pieces, text);
      assert Run(re[0], text, |pieces[0]|);
      assert Fits(Items(re[2..]), pieces[1..], text[|pieces[0]|..]);
    }
    if k: nat :| Run(re[0], text, k) && MatchesHere(re[2..], text[k..]) {
      var pieces :| Fits(Items(re[2..]), pieces, text[k..]);
      var all := [text[..k]] + pieces;
      assert all[1..] == pieces;
      FitsTail(items, all, text);
    }
  }

  // ----- the matcher -----

  method MatchHere(re: string, text: string) returns (r: bool)
    ensures r <==> MatchesHere(re, text)
    decreases |re|, 0
  {
    if re == "" {
      HereEmpty(text);
      return true;
    }
    if |re| >= 2 && re[1] == '*' {
      HereStar(re, text);
      r := MatchStar(re[0], re[2..], text);
      return;
    }
    if re == "$" {
      HereEnd(text);
      return text == "";
    }
    HereLit(re, text);
    if text != "" && (re[0] == '.' || re[0] == text[0]) {
      r := MatchHere(re[1..], text[1..]);
      return;
    }
    return false;
  }

  /** The loop tries every number of repetitions, the smallest first. */
  method MatchStar(c: char, re: string, text: string) returns (r: bool)
    ensures r <==> StarMatches(c, re, text)
    decreases |re|, 1
  {
    var k := 0;
    while true
      invariant Run(c, text, k)
      invariant forall j: nat :: j < k ==> !MatchesHere(re, text[j..])
      decreases |text| - k
    {
      r := MatchHere(re, text[k..]);
      if r {
        return true;
      }
      if k == |text| || !(text[k] == c || c == '.') {
        return false;
      }
      k := k + 1;
    }
  }

  method Match(re: string, text: string) returns (r: bool)
    ensures r <==> Matches(re, text)
  {
    if re != "" && re[0] == '^' {
      r := MatchHere(re[1..], text);
      return;
    }
    var k := 0;
    while true
      invariant 0 <= k <= |text|
      invariant forall j :: 0 <= j < k ==> !MatchesHere(re, text[j..])
      decreases |text| - k
    {
      r := MatchHere(re, text[k..]);
      if r {
        return true;
      }
      if k == |text| {
        return false;
      }
      k := k + 1;
    }
  }
}
