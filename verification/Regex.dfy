/**
 The regular expression matcher of grep.c, after chapter 9 of The Practice of
 Programming, proved against the strings its patterns describe.

 Patterns and texts are NUL-free strings; the terminating NUL of the C strings
 is the end of the sequence.
 */
module Regex {

  /** One element of a pattern: a character or any, a starred one, or the final end-of-text mark. */
  datatype Token = One(c: char) | Star(c: char) | End

  /** The elements of a pattern body, leaving a leading '^' aside. */
  function Tokens(re: string): (ts: seq<Token>) {
    if re == [] then []
    else if |re| > 1 && re[1] == '*' then [Star(re[0])] + Tokens(re[2..])
    else if re == "$" then [End]
    else [One(re[0])] + Tokens(re[1..])
  }

  predicate MatchesChar(c: char, x: char) {
    c == '.' || c == x
  }

  /** Which pieces of text an element stands for. */
  predicate Fits(t: Token, piece: string) {
    match t
    case One(c) => |piece| == 1 && MatchesChar(c, piece[0])
    case Star(c) => forall i :: 0 <= i < |piece| ==> MatchesChar(c, piece[i])
    case End => piece == []
  }

  function Join(pieces: seq<string>): string {
    if pieces == [] then [] else pieces[0] + Join(pieces[1..])
  }

  /** The text starts with one piece per element, in order, and stops there if the pattern ends in '$'. */
  ghost predicate Splits(ts: seq<Token>, text: string, pieces: seq<string>) {
    && |pieces| == |ts|
    && (forall i :: 0 <= i < |ts| ==> Fits(ts[i], pieces[i]))
    && Join(pieces) <= text
    && (ts != [] && ts[|ts| - 1].End? ==> Join(pieces) == text)
  }

  /** Some beginning of the text is described by the elements. */
  ghost predicate MatchesAt(ts: seq<Token>, text: string) {
    exists pieces: seq<string> :: Splits(ts, text, pieces)
  }

  /** The meaning of a whole pattern: '^' ties the match to the start of the text. */
  ghost predicate Describes(re: string, text: string) {
    if re != [] && re[0] == '^' then MatchesAt(Tokens(re[1..]), text)
    else exists k :: 0 <= k <= |text| && MatchesAt(Tokens(re), text[k..])
  }

  // ----- how the meaning unfolds -----

  lemma MatchesNothing(text: string)
    ensures MatchesAt([], text)
  {
    assert Splits([], text, []);
  }

  /** An end mark may only come last, and Tokens never yields one elsewhere. */
  ghost predicate EndLast(ts: seq<Token>) {
    forall i :: 0 <= i < |ts| - 1 ==> !ts[i].End?
  }

  lemma {:induction false} TokensEndLast(re: string)
    ensures EndLast(Tokens(re))
  {
    if re == [] {
    } else if |re| > 1 && re[1] == '*' {
      TokensEndLast(re[2..]);
    } else if re == "$" {
    } else {
      TokensEndLast(re[1..]);
    }
  }

  /** A match of t followed by ts is a piece for t and a match of ts behind it. */
  lemma Unfold(t: Token, ts: seq<Token>, text: string, n: nat)
    requires n <= |text| && Fits(t, text[..n]) && MatchesAt(ts, text[n..]) && !t.End?
    ensures MatchesAt([t] + ts, text)
  {
    var pieces :| Splits(ts, text[n..], pieces);
    var all := [text[..n]] + pieces;
    assert all[1..] == pieces;
    assert text == text[..n] + text[n..];
    var us := [t] + ts;
    forall i | 0 <= i < |us| ensures Fits(us[i], all[i]) {
    }
    assert ts != [] ==> us[|us| - 1] == ts[|ts| - 1];
    assert Splits(us, text, all);
  }

  lemma Fold(t: Token, ts: seq<Token>, text: string) returns (n: nat)
    requires MatchesAt([t] + ts, text) && !t.End?
    ensures n <= |text| && Fits(t, text[..n]) && MatchesAt(ts, text[n..])
  {
    var us := [t] + ts;
    var pieces :| Splits(us, text, pieces);
    n := |pieces[0]|;
    var rest := pieces[1..];
    assert Join(pieces) == pieces[0] + Join(rest);
    assert text[..n] == pieces[0] by {
      assert Join(pieces)[..n] == pieces[0];
    }
    assert us[0] == t;
    assert Fits(us[0], pieces[0]);
    forall i | 0 <= i < |ts| ensures Fits(ts[i], rest[i]) {
      assert us[i + 1] == ts[i];
      assert Fits(us[i + 1], pieces[i + 1]);
    }
    assert ts != [] ==> us[|us| - 1] == ts[|ts| - 1];
    assert Join(rest) <= text[n..];
    assert Splits(ts, text[n..], rest);
  }

  lemma MatchesOne(c: char, ts: seq<Token>, text: string)
    ensures MatchesAt([One(c)] + ts, text) <==> text != [] && MatchesChar(c, text[0]) && MatchesAt(ts, text[1..])
  {
    if MatchesAt([One(c)] + ts, text) {
      var n := Fold(One(c), ts, text);
    }
    if text != [] && MatchesChar(c, text[0]) && MatchesAt(ts, text[1..]) {
      Unfold(One(c), ts, text, 1);
    }
  }

  lemma MatchesEnd(text: string)
    ensures MatchesAt([End], text) <==> text == []
  {
    if MatchesAt([End], text) {
      var pieces :| Splits([End], text, pieces);
      assert Fits([End][0], pieces[0]);
      assert pieces == [pieces[0]] && pieces[1..] == [];
    }
    if text == [] {
      assert Join([[]]) == [];
      assert Splits([End], text, [[]]);
    }
  }

  /** c* then ts: ts here, or one more c and the same again. */
  lemma MatchesStar(c: char, ts: seq<Token>, text: string)
    ensures MatchesAt([Star(c)] + ts, text) <==>
            MatchesAt(ts, text) || (text != [] && MatchesChar(c, text[0]) && MatchesAt([Star(c)] + ts, text[1..]))
  {
    if MatchesAt([Star(c)] + ts, text) {
      var n := Fold(Star(c), ts, text);
      if n == 0 {
        assert text[0..] == text;
      } else {
        assert text[1..][n - 1..] == text[n..] && text[1..][..n - 1] == text[..n][1..];
        Unfold(Star(c), ts, text[1..], n - 1);
      }
    }
    if MatchesAt(ts, text) {
      assert text[0..] == text;
      Unfold(Star(c), ts, text, 0);
    }
    if text != [] && MatchesChar(c, text[0]) && MatchesAt([Star(c)] + ts, text[1..]) {
      var n := Fold(Star(c), ts, text[1..]);
      assert text[1..][n..] == text[n + 1..];
      assert text[..n + 1] == [text[0]] + text[1..][..n];
      Unfold(Star(c), ts, text, n + 1);
    }
  }

  // ----- the matcher -----

  /** match: does the pattern describe some part of the text? */
  method Match(re: string, text: string) returns (found: bool)
    ensures found <==> Describes(re, text)
  {
    if re != [] && re[0] == '^' {
      found := MatchHere(re[1..], text);
      return;
    }
    var k := 0;
    while true
      invariant 0 <= k <= |text|
      invariant forall j :: 0 <= j < k ==> !MatchesAt(Tokens(re), text[j..])
      decreases |text| - k
    {
      found := MatchHere(re, text[k..]);
      if found {
        return;
      }
      if k == |text| {
        return false;
      }
      k := k + 1;
    }
  }

  /** matchhere: does the text begin with what re describes? */
  method MatchHere(re: string, text: string) returns (found: bool)
    ensures found <==> MatchesAt(Tokens(re), text)
    decreases |re|, 0, |text|
  {
    if re == [] {
      MatchesNothing(text);
      return true;
    }
    if |re| > 1 && re[1] == '*' {
      found := MatchStar(re[0], re[2..], text);
      return;
    }
    if re[0] == '$' && |re| == 1 {
      MatchesEnd(text);
      return text == [];
    }
    MatchesOne(re[0], Tokens(re[1..]), text);
    if text != [] && (re[0] == '.' || re[0] == text[0]) {
      found := MatchHere(re[1..], text[1..]);
      return;
    }
    return false;
  }

  /** matchstar: does the text begin with c* followed by what re describes? */
  method MatchStar(c: char, re: string, text: string) returns (found: bool)
    ensures found <==> MatchesAt([Star(c)] + Tokens(re), text)
    decreases |re|, 1, |text|
  {
    var k := 0;
    assert text[0..] == text;
    while true
      invariant 0 <= k <= |text|
      invariant MatchesAt([Star(c)] + Tokens(re), text) <==> MatchesAt([Star(c)] + Tokens(re), text[k..])
      decreases |text| - k
    {
      MatchesStar(c, Tokens(re), text[k..]);
      found := MatchHere(re, text[k..]);
      if found {
        return;
      }
      if k == |text| || !(text[k] == c || c == '.') {
        return false;
      }
      assert text[k..][1..] == text[k + 1..];
      k := k + 1;
    }
  }
}
