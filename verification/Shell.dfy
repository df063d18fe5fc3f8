/**
 The shell's command parser (sh.c).

 The grammar is given over tokens, as functions; the methods work as the source
 does, on a cursor into the line, and are proved to follow the grammar.
 */
module Shell {

  import opened Basics

  const MAXARGS: nat := 10
  const NUL: char := '\0'

  /** A word of the line: from q up to eq. */
  datatype Span = Span(q: nat, eq: nat)

  /** kind is the token's character, '+' for >> and 'a' for a word. */
  datatype Tok = Tok(kind: char, span: Span)

  /** Parsed commands over words of type W; both output redirections open the file alike. */
  datatype Cmd<W> =
    | Exec(argv: seq<W>)
    | Redir(cmd: Cmd<W>, file: W, output: bool)
    | Pipe(left: Cmd<W>, right: Cmd<W>)
    | List(left: Cmd<W>, right: Cmd<W>)
    | Back(cmd: Cmd<W>)

  // ----- characters -----

  predicate IsSpace(c: char) {
    c == ' ' || c == '\t' || c == '\r' || c == '\n' || c == '\U{000B}'
  }

  predicate IsSymbol(c: char) {
    c == '<' || c == '|' || c == '>' || c == '&' || c == ';' || c == '(' || c == ')'
  }

  predicate InWord(c: char) {
    !IsSpace(c) && !IsSymbol(c) && c != NUL
  }

  // ----- tokens -----

  /** The first position from s on that is not white space. */
  function Skip(line: string, s: nat): (r: nat)
    requires s <= |line|
    ensures s <= r <= |line| && (r < |line| ==> !IsSpace(line[r]))
    ensures forall k :: s <= k < r ==> IsSpace(line[k])
    decreases |line| - s
  {
    if s < |line| && IsSpace(line[s]) then Skip(line, s + 1) else s
  }

  /** The end of the word characters from s on. */
  function WordEnd(line: string, s: nat): (r: nat)
    requires s <= |line|
    ensures s <= r <= |line| && (r < |line| ==> !InWord(line[r]))
    ensures forall k :: s <= k < r ==> InWord(line[k])
    decreases |line| - s
  {
    if s < |line| && InWord(line[s]) then WordEnd(line, s + 1) else s
  }

  /** The token that starts at s. */
  function TokAt(line: string, s: nat): (t: Tok)
    requires s < |line| && !IsSpace(line[s]) && line[s] != NUL
    ensures t.span.q == s < t.span.eq <= |line|
  {
    if line[s] == '>' && s + 1 < |line| && line[s + 1] == '>' then Tok('+', Span(s, s + 2))
    else if IsSymbol(line[s]) then Tok(line[s], Span(s, s + 1))
    else Tok('a', Span(s, WordEnd(line, s)))
  }

  predicate Clean(line: string) {
    NUL !in line
  }

  /** The tokens from s on. */
  function Lex(line: string, s: nat): (ts: seq<Tok>)
    requires s <= |line| && Clean(line)
    decreases |line| - s
  {
    var p := Skip(line, s);
    if p == |line| then [] else [TokAt(line, p)] + Lex(line, TokAt(line, p).span.eq)
  }

  // ----- the grammar -----

  datatype Parse = Err | Ok(cmd: Cmd<Span>, rest: seq<Tok>)
  datatype Redirs = BadRedir | Redirections(list: seq<(Span, bool)>, rest: seq<Tok>)

  predicate StartsRedir(ts: seq<Tok>) {
    ts != [] && (ts[0].kind == '<' || ts[0].kind == '>' || ts[0].kind == '+')
  }

  predicate StartsWith(ts: seq<Tok>, c: char) {
    ts != [] && ts[0].kind == c
  }

  /** What ends the words of a command. */
  predicate EndsWords(ts: seq<Tok>) {
    ts == [] || ts[0].kind == '|' || ts[0].kind == ')' || ts[0].kind == '&' || ts[0].kind == ';'
  }

  /** A command inside its redirections, the last one outermost. */
  function Wrap<W>(c: Cmd<W>, rs: seq<(W, bool)>): (r: Cmd<W>) {
    if rs == [] then c else Redir(Wrap(c, rs[..|rs| - 1]), rs[|rs| - 1].0, rs[|rs| - 1].1)
  }

  /** redirs := { ('<' | '>' | '>>') word }, added to those there are. */
  function RedirsOf(rs: seq<(Span, bool)>, ts: seq<Tok>): (r: Redirs)
    ensures r.Redirections? ==> |r.rest| <= |ts| && !StartsRedir(r.rest)
    decreases |ts|
  {
    if !StartsRedir(ts) then Redirections(rs, ts)
    else if !StartsWith(ts[1..], 'a') then BadRedir
    else RedirsOf(rs + [(ts[1].span, ts[0].kind != '<')], ts[2..])
  }

  /** { word redirs } */
  function WordsOf(args: seq<Span>, rs: seq<(Span, bool)>, ts: seq<Tok>): (r: Parse)
    ensures r.Ok? ==> |r.rest| <= |ts|
    decreases |ts|
  {
    if EndsWords(ts) then Ok(Wrap(Exec(args), rs), ts)
    else if ts[0].kind != 'a' || |args| + 1 >= MAXARGS then Err
    else
      var more := RedirsOf(rs, ts[1..]);
      if more.BadRedir? then Err else WordsOf(args + [ts[0].span], more.list, more.rest)
  }

  /** exec := '(' line ')' redirs | redirs { word redirs } */
  function ExecOf(ts: seq<Tok>): (r: Parse)
    ensures r.Ok? ==> |r.rest| <= |ts|
    decreases |ts|, 0
  {
    if StartsWith(ts, '(') then
      var inner := LineOf(ts[1..]);
      if inner.Err? || !StartsWith(inner.rest, ')') then Err
      else
        var after := RedirsOf([], inner.rest[1..]);
        if after.BadRedir? then Err else Ok(Wrap(inner.cmd, after.list), after.rest)
    else
      var first := RedirsOf([], ts);
      if first.BadRedir? then Err else WordsOf([], first.list, first.rest)
  }

  /** pipe := exec [ '|' pipe ] */
  function PipeOf(ts: seq<Tok>): (r: Parse)
    ensures r.Ok? ==> |r.rest| <= |ts|
    decreases |ts|, 1
  {
    var left := ExecOf(ts);
    if left.Err? || !StartsWith(left.rest, '|') then left
    else
      var right := PipeOf(left.rest[1..]);
      if right.Err? then Err else Ok(Pipe(left.cmd, right.cmd), right.rest)
  }

  /** { '&' } */
  function BacksOf(c: Cmd<Span>, ts: seq<Tok>): (r: Parse)
    ensures r.Ok? && |r.rest| <= |ts| && !StartsWith(r.rest, '&')
    decreases |ts|
  {
    if StartsWith(ts, '&') then BacksOf(Back(c), ts[1..]) else Ok(c, ts)
  }

  /** line := pipe { '&' } [ ';' line ] */
  function LineOf(ts: seq<Tok>): (r: Parse)
    ensures r.Ok? ==> |r.rest| <= |ts|
    decreases |ts|, 2
  {
    var first := PipeOf(ts);
    if first.Err? then Err
    else
      var left := BacksOf(first.cmd, first.rest);
      if !StartsWith(left.rest, ';') then left
      else
        var right := LineOf(left.rest[1..]);
        if right.Err? then Err else Ok(List(left.cmd, right.cmd), right.rest)
  }

  /** The command a whole line stands for. */
  function CommandOf(line: string): (r: Option<Cmd<Span>>)
    requires Clean(line)
  {
    var r := LineOf(Lex(line, 0));
    if r.Ok? && r.rest == [] then Some(r.cmd) else None
  }

  // ----- lexing step by step -----

  lemma LexSkip(line: string, s: nat)
    requires s <= |line| && Clean(line)
    ensures Lex(line, Skip(line, s)) == Lex(line, s)
  {
    var p := Skip(line, s);
    assert Skip(line, p) == p;
  }

  /** The first token and the rest. */
  lemma LexFirst(line: string, s: nat)
    requires s <= |line| && Clean(line)
    ensures var p := Skip(line, s);
            if p == |line| then Lex(line, s) == []
            else var t := TokAt(line, p);
                 Lex(line, s) != [] && Lex(line, s)[0] == t && Lex(line, s)[1..] == Lex(line, t.span.eq) &&
                 Lex(line, Skip(line, t.span.eq)) == Lex(line, s)[1..]
  {
    var p := Skip(line, s);
    if p < |line| {
      LexSkip(line, TokAt(line, p).span.eq);
    }
  }

  /** The character a token starts with; 'a' stands for any word. */
  function CharOf(t: Tok): char {
    if t.kind == '+' then '>' else t.kind
  }

  /** The next token starts with one of these symbols. */
  predicate Shows(ts: seq<Tok>, toks: string) {
    ts != [] && CharOf(ts[0]) in toks
  }

  /** The symbol sets the parser peeks for. */
  lemma PeekSets(c: char)
    ensures c in "&" <==> c == '&'
    ensures c in ";" <==> c == ';'
    ensures c in "|" <==> c == '|'
    ensures c in "(" <==> c == '('
    ensures c in ")" <==> c == ')'
    ensures c in "<>" <==> c == '<' || c == '>'
    ensures c in "|)&;" <==> c == '|' || c == ')' || c == '&' || c == ';'
  {
    assert "<>"[0] == '<' && "<>"[1] == '>';
    var four := "|)&;";
    assert four[0] == '|' && four[1] == ')' && four[2] == '&' && four[3] == ';';
  }

  /** A token's kind is one of the symbols, '+', or 'a'. */
  lemma Kinds(line: string, s: nat)
    requires s <= |line| && Clean(line) && Lex(line, s) != []
    ensures var k := Lex(line, s)[0].kind; k == '+' || k == 'a' || IsSymbol(k)
  {
  }

  // ----- the parser on a cursor -----

  class Parser {
    const line: string
    var s: nat

    constructor (line: string)
      requires Clean(line)
      ensures Valid() && this.line == line && s == 0
    {
      this.line := line;
      s := 0;
    }

    ghost predicate Valid()
      reads this
    {
      s <= |line| && Clean(line)
    }

    ghost function Tokens(): seq<Tok>
      requires Valid()
      reads this
    {
      Lex(line, s)
    }

    /** The loops over white space. */
    method SkipSpace()
      requires Valid()
      modifies this`s
      ensures Valid() && s == Skip(line, old(s)) && Tokens() == old(Tokens())
    {
      ghost var s0 := s;
      while s < |line| && IsSpace(line[s])
        invariant s0 <= s <= |line| && Skip(line, s) == Skip(line, s0)
      {
        s := s + 1;
      }
      LexSkip(line, s0);
    }

    /** gettoken: the kind, or NUL at the end, and where the token lies. */
    method GetToken() returns (kind: char, span: Span)
      requires Valid()
      modifies this`s
      ensures Valid() && s >= old(s) && (kind == NUL <==> old(Tokens()) == [])
      ensures if old(Tokens()) == [] then kind == NUL && Tokens() == []
              else Tok(kind, span) == old(Tokens())[0] && Tokens() == old(Tokens())[1..] && s > old(s)
    {
      LexFirst(line, s);
      SkipSpace();
      var q := s;
      if s == |line| {
        return NUL, Span(q, s);
      }
      ghost var t := TokAt(line, s);
      kind := line[s];
      if IsSymbol(line[s]) {
        if line[s] == '>' {
          s := s + 1;
          if s < |line| && line[s] == '>' {
            kind := '+';
            s := s + 1;
          }
        } else {
          s := s + 1;
        }
      } else {
        kind := 'a';
        while s < |line| && !IsSpace(line[s]) && !IsSymbol(line[s])
          invariant q <= s <= |line| && WordEnd(line, s) == WordEnd(line, q)
        {
          assert line[s] in line;
          s := s + 1;
        }
      }
      span := Span(q, s);
      assert Tok(kind, span) == t;
      SkipSpace();
    }

    /** peek. */
    method Peek(toks: string) returns (b: bool)
      requires Valid() && forall c :: c in toks ==> IsSymbol(c)
      modifies this`s
      ensures Valid() && s >= old(s) && Tokens() == old(Tokens())
      ensures s == Skip(line, old(s)) && (b <==> Shows(Tokens(), toks))
      ensures Tokens() != [] ==> var k := Tokens()[0].kind; k == '+' || k == 'a' || IsSymbol(k)
    {
      LexFirst(line, s);
      SkipSpace();
      b := s < |line| && line[s] in toks;
      if s < |line| {
        Kinds(line, s);
        assert Skip(line, s) == s && Tokens()[0] == TokAt(line, s);
      }
    }

    /** What the answer of a peek says about the next token. */
    lemma Peeked()
      requires Valid()
      ensures Tokens() != [] ==> var c := CharOf(Tokens()[0]);
                                 (c in "&" <==> c == '&') && (c in ";" <==> c == ';') && (c in "|" <==> c == '|') &&
                                   (c in "(" <==> c == '(') &&
                                 (c in ")" <==> c == ')') && (c in "<>" <==> c == '<' || c == '>') &&
                                 (c in "|)&;" <==> c == '|' || c == ')' || c == '&' || c == ';')
    {
      if Tokens() != [] {
        PeekSets(CharOf(Tokens()[0]));
      }
    }

    /** parseredirs, as the list of redirections it wraps around the command. */
    method ParseRedirs(rs: seq<(Span, bool)>) returns (r: Option<seq<(Span, bool)>>)
      requires Valid()
      modifies this`s
      ensures Valid() && s >= old(s)
      ensures var spec := RedirsOf(rs, old(Tokens()));
              if spec.BadRedir? then r == None else r == Some(spec.list) && Tokens() == spec.rest
    {
      ghost var spec := RedirsOf(rs, Tokens());
      var list := rs;
      var more := Peek("<>");
      Peeked();
      while more
        invariant Valid() && s >= old(s)
        invariant more <==> StartsRedir(Tokens())
        invariant RedirsOf(list, Tokens()) == spec
        decreases |line| - s
      {
        ghost var ts := Tokens();
        var tok, first := GetToken();
        var kind, file := GetToken();
        if kind != 'a' {
          return None;
        }
        list := list + [(file, tok != '<')];
        assert ts[1..][1..] == ts[2..];
        more := Peek("<>");
        Peeked();
      }
      return Some(list);
    }

    /** parseline. */
    method ParseLine() returns (r: Option<Cmd<Span>>)
      requires Valid()
      modifies this`s
      ensures Valid() && s >= old(s)
      ensures var spec := LineOf(old(Tokens())); if spec.Err? then r == None else
                                                                     r == Some(spec.cmd) && Tokens() == spec.rest
      decreases |line| - s, 3
    {
      ghost var ts := Tokens();
      r := ParsePipe();
      if r.None? {
        return;
      }
      var cmd := r.value;
      ghost var left := BacksOf(cmd, Tokens());
      var more := Peek("&");
      Peeked();
      while more
        invariant Valid() && s >= old(s)
        invariant more <==> StartsWith(Tokens(), '&')
        invariant BacksOf(cmd, Tokens()) == left
        decreases |line| - s
      {
        var tok, span := GetToken();
        cmd := Back(cmd);
        more := Peek("&");
        Peeked();
      }
      var semi := Peek(";");
      Peeked();
      if semi {
        var tok, span := GetToken();
        var right := ParseLine();
        if right.None? {
          return None;
        }
        cmd := List(cmd, right.value);
      }
      return Some(cmd);
    }

    /** parsepipe. */
    method ParsePipe() returns (r: Option<Cmd<Span>>)
      requires Valid()
      modifies this`s
      ensures Valid() && s >= old(s)
      ensures var spec := PipeOf(old(Tokens())); if spec.Err? then r == None else
                                                                     r == Some(spec.cmd) && Tokens() == spec.rest
      decreases |line| - s, 2
    {
      r := ParseExec();
      if r.None? {
        return;
      }
      var bar := Peek("|");
      Peeked();
      if bar {
        var tok, span := GetToken();
        var right := ParsePipe();
        if right.None? {
          return None;
        }
        return Some(Pipe(r.value, right.value));
      }
    }

    /** parseblock. */
    method ParseBlock() returns (r: Option<Cmd<Span>>)
      requires Valid() && StartsWith(Tokens(), '(')
      modifies this`s
      ensures Valid() && s >= old(s)
      ensures var spec := ExecOf(old(Tokens())); if spec.Err? then r == None else
                                                                     r == Some(spec.cmd) && Tokens() == spec.rest
      decreases |line| - s, 0
    {
      var tok, span := GetToken();
      r := ParseLine();
      if r.None? {
        return;
      }
      var close := Peek(")");
      Peeked();
      if !close {
        return None;
      }
      tok, span := GetToken();
      var rs := ParseRedirs([]);
      if rs.None? {
        return None;
      }
      return Some(Wrap(r.value, rs.value));
    }

    /** parseexec. */
    method ParseExec() returns (r: Option<Cmd<Span>>)
      requires Valid()
      modifies this`s
      ensures Valid() && s >= old(s)
      ensures var spec := ExecOf(old(Tokens())); if spec.Err? then r == None else
                                                                     r == Some(spec.cmd) && Tokens() == spec.rest
      decreases |line| - s, 1
    {
      hide Lex, LineOf, WordsOf;
      var open := Peek("(");
      Peeked();
      if open {
        r := ParseBlock();
        return;
      }
      var rs := ParseRedirs([]);
      if rs.None? {
        return None;
      }
      r := ParseWords(rs.value);
    }

    /** parseexec's loop over words and the redirections between them. */
    method ParseWords(first: seq<(Span, bool)>) returns (r: Option<Cmd<Span>>)
      requires Valid()
      modifies this`s
      ensures Valid() && s >= old(s)
      ensures var spec := WordsOf([], first, old(Tokens())); if spec.Err? then r == None else
                                                                                 r == Some(spec.cmd) &&
                                                                                   Tokens() == spec.rest
    {
      hide Lex, Wrap;
      ghost var spec := WordsOf([], first, Tokens());
      var argv: seq<Span> := [];
      var list := first;
      var stop := Peek("|)&;");
      Peeked();
      while !stop
        invariant Valid() && s >= old(s) && WordsOf(argv, list, Tokens()) == spec
        invariant stop ==> EndsWords(Tokens())
        invariant !stop ==> Tokens() == [] || !EndsWords(Tokens())
        decreases !stop, |line| - s
      {
        ghost var ts := Tokens();
        var tok, span := GetToken();
        if tok == NUL {
          stop := true;
        } else {
          if tok != 'a' {
            return None;
          }
          argv := argv + [span];
          if |argv| >= MAXARGS {
            return None;
          }
          var rs := ParseRedirs(list);
          if rs.None? {
            return None;
          }
          list := rs.value;
          stop := Peek("|)&;");
          Peeked();
        }
      }
      return Some(Wrap(Exec(argv), list));
    }
  }

  // ----- marking the ends of words -----

  /** Where nulterminate writes. */
  ghost function Ends(c: Cmd<Span>): (e: set<nat>) {
    match c
    case Exec(argv) => set k | 0 <= k < |argv| :: argv[k].eq
    case Redir(sub, file, output) => Ends(sub) + {file.eq}
    case Pipe(l, r) => Ends(l) + Ends(r)
    case List(l, r) => Ends(l) + Ends(r)
    case Back(sub) => Ends(sub)
  }

  /** All the words of a command. */
  ghost function Words(c: Cmd<Span>): (w: set<Span>) {
    match c
    case Exec(argv) => set k | 0 <= k < |argv| :: argv[k]
    case Redir(sub, file, output) => Words(sub) + {file}
    case Pipe(l, r) => Words(l) + Words(r)
    case List(l, r) => Words(l) + Words(r)
    case Back(sub) => Words(sub)
  }

  lemma {:induction false} EndsAre(c: Cmd<Span>)
    ensures Ends(c) == set w | w in Words(c) :: w.eq
  {
    match c
    case Exec(argv) =>
    case Redir(sub, file, output) => EndsAre(sub);
    case Pipe(l, r) => EndsAre(l); EndsAre(r);
    case List(l, r) => EndsAre(l); EndsAre(r);
    case Back(sub) => EndsAre(sub);
  }

  /** The buffer with NULs at these places. */
  ghost predicate MarkedAt(b0: seq<char>, b: seq<char>, e: set<nat>) {
    |b| == |b0| && forall k: nat :: k < |b| ==> b[k] == if k in e then NUL else b0[k]
  }

  /** nulterminate: a NUL after every word of the command, and nothing else changed. */
  method Nulterminate(c: Cmd<Span>, buf: array<char>)
    requires forall e :: e in Ends(c) ==> e < buf.Length
    modifies buf
    ensures MarkedAt(old(buf[..]), buf[..], Ends(c))
    decreases c
  {
    match c
    case Exec(argv) =>
      for i := 0 to |argv|
        invariant MarkedAt(old(buf[..]), buf[..], set k | 0 <= k < i :: argv[k].eq)
      {
        assert argv[i].eq in Ends(c);
        buf[argv[i].eq] := NUL;
      }
    case Redir(sub, file, output) =>
      assert Ends(sub) <= Ends(c);
      Nulterminate(sub, buf);
      assert file.eq in Ends(c);
      buf[file.eq] := NUL;
    case Pipe(l, r) =>
      assert Ends(l) <= Ends(c) && Ends(r) <= Ends(c);
      Nulterminate(l, buf);
      Nulterminate(r, buf);
    case List(l, r) =>
      assert Ends(l) <= Ends(c) && Ends(r) <= Ends(c);
      Nulterminate(l, buf);
      Nulterminate(r, buf);
    case Back(sub) =>
      assert Ends(sub) <= Ends(c);
      Nulterminate(sub, buf);
  }

  /** A maximal run of word characters. */
  ghost predicate IsWord(line: string, w: Span) {
    w.q < w.eq <= |line| && (forall k :: w.q <= k < w.eq ==> InWord(line[k])) && (w.eq < |line| ==> !InWord(line[w.eq]))
  }

  /** Tokens of kind 'a' are words of the line. */
  ghost predicate Lexed(line: string, ts: seq<Tok>) {
    forall k :: 0 <= k < |ts| && ts[k].kind == 'a' ==> IsWord(line, ts[k].span)
  }

  lemma {:induction false} LexWords(line: string, s: nat)
    requires s <= |line| && Clean(line)
    ensures Lexed(line, Lex(line, s))
    decreases |line| - s
  {
    var p := Skip(line, s);
    if p < |line| {
      assert line[p] in line;
      LexWords(line, TokAt(line, p).span.eq);
    }
  }

  // ----- every word of a parsed command is a word of the line -----

  ghost predicate AllWords(line: string, c: Cmd<Span>) {
    forall w :: w in Words(c) ==> IsWord(line, w)
  }

  ghost predicate RedirWords(line: string, rs: seq<(Span, bool)>) {
    forall k :: 0 <= k < |rs| ==> IsWord(line, rs[k].0)
  }

  lemma {:induction false} WrapWords(line: string, c: Cmd<Span>, rs: seq<(Span, bool)>)
    requires AllWords(line, c) && RedirWords(line, rs)
    ensures AllWords(line, Wrap(c, rs))
  {
    hide IsWord;
    if rs != [] {
      WrapWords(line, c, rs[..|rs| - 1]);
    }
  }

  lemma {:induction false} RedirsWords(line: string, rs: seq<(Span, bool)>, ts: seq<Tok>)
    requires RedirWords(line, rs) && Lexed(line, ts)
    ensures var r := RedirsOf(rs, ts); r.Redirections? ==> RedirWords(line, r.list) && Lexed(line, r.rest)
    decreases |ts|
  {
    hide IsWord;
    if StartsRedir(ts) && StartsWith(ts[1..], 'a') {
      RedirsWords(line, rs + [(ts[1].span, ts[0].kind != '<')], ts[2..]);
    }
  }

  lemma {:induction false} WordsWords(line: string, args: seq<Span>, rs: seq<(Span, bool)>, ts: seq<Tok>)
    requires (forall k :: 0 <= k < |args| ==> IsWord(line, args[k])) && RedirWords(line, rs) && Lexed(line, ts)
    ensures var r := WordsOf(args, rs, ts); r.Ok? ==> AllWords(line, r.cmd) && Lexed(line, r.rest)
    decreases |ts|
  {
    hide IsWord;
    if EndsWords(ts) {
      WrapWords(line, Exec(args), rs);
    } else if ts[0].kind == 'a' && |args| + 1 < MAXARGS {
      RedirsWords(line, rs, ts[1..]);
      var more := RedirsOf(rs, ts[1..]);
      if more.Redirections? {
        WordsWords(line, args + [ts[0].span], more.list, more.rest);
      }
    }
  }

  lemma {:induction false} ExecWords(line: string, ts: seq<Tok>)
    requires Lexed(line, ts)
    ensures ExecOf(ts).Ok? ==> AllWords(line, ExecOf(ts).cmd) && Lexed(line, ExecOf(ts).rest)
    decreases |ts|, 0
  {
    hide IsWord;
    if StartsWith(ts, '(') {
      LineWords(line, ts[1..]);
      var inner := LineOf(ts[1..]);
      if inner.Ok? && StartsWith(inner.rest, ')') {
        RedirsWords(line, [], inner.rest[1..]);
        var after := RedirsOf([], inner.rest[1..]);
        if after.Redirections? {
          WrapWords(line, inner.cmd, after.list);
        }
      }
    } else {
      RedirsWords(line, [], ts);
      var first := RedirsOf([], ts);
      if first.Redirections? {
        WordsWords(line, [], first.list, first.rest);
      }
    }
  }

  lemma {:induction false} PipeWords(line: string, ts: seq<Tok>)
    requires Lexed(line, ts)
    ensures PipeOf(ts).Ok? ==> AllWords(line, PipeOf(ts).cmd) && Lexed(line, PipeOf(ts).rest)
    decreases |ts|, 1
  {
    hide IsWord;
    ExecWords(line, ts);
    var left := ExecOf(ts);
    if left.Ok? && StartsWith(left.rest, '|') {
      PipeWords(line, left.rest[1..]);
    }
  }

  lemma {:induction false} BacksWords(line: string, c: Cmd<Span>, ts: seq<Tok>)
    requires AllWords(line, c) && Lexed(line, ts)
    ensures AllWords(line, BacksOf(c, ts).cmd) && Lexed(line, BacksOf(c, ts).rest)
    decreases |ts|
  {
    hide IsWord;
    if StartsWith(ts, '&') {
      BacksWords(line, Back(c), ts[1..]);
    }
  }

  lemma {:induction false} LineWords(line: string, ts: seq<Tok>)
    requires Lexed(line, ts)
    ensures LineOf(ts).Ok? ==> AllWords(line, LineOf(ts).cmd) && Lexed(line, LineOf(ts).rest)
    decreases |ts|, 2
  {
    hide IsWord;
    PipeWords(line, ts);
    var first := PipeOf(ts);
    if first.Ok? {
      BacksWords(line, first.cmd, first.rest);
      var left := BacksOf(first.cmd, first.rest);
      if StartsWith(left.rest, ';') {
        LineWords(line, left.rest[1..]);
      }
    }
  }

  /** The C string at q. */
  ghost function CString(b: seq<char>, q: nat): string
    decreases |b| - q
  {
    if q >= |b| || b[q] == NUL then "" else [b[q]] + CString(b, q + 1)
  }

  /** No mark falls inside a word, so each word reads back as exactly its text. */
  lemma WordsReadBack(line: string, b0: seq<char>, b: seq<char>, c: Cmd<Span>, w: Span)
    requires AllWords(line, c) && w in Words(c) && Clean(line) && |line| < |b0| && line == b0[..|line|] &&
             b0[|line|] == NUL
    requires MarkedAt(b0, b, Ends(c))
    ensures IsWord(line, w) && CString(b, w.q) == line[w.q..w.eq]
  {
    EndsAre(c);
    EndsInside(line, c);
    forall k | w.q <= k < w.eq ensures b[k] == line[k] != NUL {
      assert k !in Ends(c);
    }
    assert w.eq in Ends(c);
    ReadBack(line, b, w.q, w.eq);
  }

  lemma {:induction false} ReadBack(line: string, b: seq<char>, q: nat, eq: nat)
    requires q <= eq <= |line| && eq < |b| && b[eq] == NUL && forall k :: q <= k < eq ==> b[k] == line[k] != NUL
    ensures CString(b, q) == line[q..eq]
    decreases eq - q
  {
    if q < eq {
      ReadBack(line, b, q + 1, eq);
      assert line[q..eq] == [line[q]] + line[q + 1..eq];
    }
  }

  ghost function StrlenFrom(b: seq<char>, n: nat): (r: nat)
    requires n <= |b| && NUL in b[n..]
    ensures n <= r < |b| && b[r] == NUL && NUL !in b[n..r]
    decreases |b| - n
  {
    if b[n] == NUL then n else StrlenFrom(b, n + 1)
  }

  /** The place of the first NUL. */
  ghost function Strlen(b: seq<char>): (r: nat)
    requires NUL in b
    ensures r < |b| && b[r] == NUL && NUL !in b[..r]
  {
    assert b[0..] == b;
    assert forall r: nat :: r <= |b| ==> b[0..r] == b[..r];
    StrlenFrom(b, 0)
  }

  lemma EndsInside(line: string, c: Cmd<Span>)
    requires AllWords(line, c)
    ensures forall e :: e in Ends(c) ==> e <= |line| && (e < |line| ==> !InWord(line[e]))
  {
    EndsAre(c);
    forall e | e in Ends(c) ensures e <= |line| && (e < |line| ==> !InWord(line[e])) {
      var v :| v in Words(c) && v.eq == e;
      assert IsWord(line, v);
    }
  }

  lemma BufferReads(line: string, b0: seq<char>, b: seq<char>, c: Cmd<Span>)
    requires AllWords(line, c) && Clean(line) && |line| < |b0| && line == b0[..|line|] && b0[|line|] == NUL &&
             MarkedAt(b0, b, Ends(c))
    ensures forall w :: w in Words(c) ==> IsWord(line, w) && CString(b, w.q) == line[w.q..w.eq]
  {
    forall w | w in Words(c) ensures IsWord(line, w) && CString(b, w.q) == line[w.q..w.eq] {
      WordsReadBack(line, b0, b, c, w);
    }
  }

  /** parsecmd on a NUL-terminated buffer: the command, and every word of it NUL-terminated in place. */
  method ParseCmd(buf: array<char>) returns (r: Option<Cmd<Span>>)
    requires NUL in buf[..]
    modifies buf
    ensures var n := Strlen(old(buf[..])); r == CommandOf(old(buf[..n]))
    ensures r.None? ==> buf[..] == old(buf[..])
    ensures var n := Strlen(old(buf[..])); r.Some? ==>
              forall w :: w in Words(r.value) ==> IsWord(old(buf[..n]), w) &&
                                                  CString(buf[..], w.q) == old(buf[..n])[w.q..w.eq]
  {
    var n := 0;
    while buf[n] != NUL
      invariant n < buf.Length && NUL !in buf[..n] && Strlen(buf[..]) == StrlenFrom(buf[..], n)
      decreases buf.Length - n
    {
      n := n + 1;
    }
    var line := buf[..n];
    var parser := new Parser(line);
    LexWords(line, 0);
    LineWords(line, Lex(line, 0));
    var cmd := parser.ParseLine();
    if cmd.None? {
      return None;
    }
    var none := parser.Peek("");
    if parser.s != n {
      return None;
    }
    EndsInside(line, cmd.value);
    Nulterminate(cmd.value, buf);
    BufferReads(line, old(buf[..]), buf[..], cmd.value);
    return cmd;
  }
}
