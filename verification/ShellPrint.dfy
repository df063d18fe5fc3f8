/**
 Printing commands and parsing them back (sh.c).

 A command is printed with parentheses only where the grammar needs them, so that
 precedence and association are part of the round trip.  White space between the
 lexemes is free, and each output redirection may be spelled > or >>.
 */
module ShellPrint {

  import opened Shell

  const WHITESPACE: string := " \t\r\n\U{000B}"
  const SYMBOLS: string := "<|>&;()"

  /** A symbol, '+' standing for >>, or a word. */
  datatype Lexeme = Sym(c: char) | Word(s: string)

  ghost predicate GoodWord(s: string) {
    s != "" && forall k :: 0 <= k < |s| ==> s[k] !in WHITESPACE && s[k] !in SYMBOLS && s[k] != NUL
  }

  /** Commands whose words are words and that have few enough of them. */
  ghost predicate Printable(c: Cmd<string>) {
    match c
    case Exec(argv) => |argv| < MAXARGS && forall k :: 0 <= k < |argv| ==> GoodWord(argv[k])
    case Redir(sub, file, output) => Printable(sub) && GoodWord(file)
    case Pipe(l, r) => Printable(l) && Printable(r)
    case List(l, r) => Printable(l) && Printable(r)
    case Back(sub) => Printable(sub)
  }

  // ----- a command and its redirections -----

  /** The command inside the redirections. */
  function Base(c: Cmd<string>): (b: Cmd<string>)
    ensures (b == c || b < c) && !b.Redir?
  {
    if c.Redir? then Base(c.cmd) else c
  }

  function Outer(c: Cmd<string>): (rs: seq<(string, bool)>) {
    if c.Redir? then Outer(c.cmd) + [(c.file, c.output)] else []
  }

  lemma {:induction false} WrapBase(c: Cmd<string>)
    ensures Wrap(Base(c), Outer(c)) == c
    ensures Printable(c) ==> Printable(Base(c)) && forall k :: 0 <= k < |Outer(c)| ==> GoodWord(Outer(c)[k].0)
  {
    if c.Redir? {
      WrapBase(c.cmd);
      assert Outer(c)[..|Outer(c)| - 1] == Outer(c.cmd);
    }
  }

  // ----- printing -----

  function WordLex(argv: seq<string>): (ls: seq<Lexeme>)
    ensures |ls| == |argv|
  {
    if argv == [] then [] else [Word(argv[0])] + WordLex(argv[1..])
  }

  function RedirLex(rs: seq<(string, bool)>): (ls: seq<Lexeme>)
    ensures |ls| == 2 * |rs|
  {
    if rs == [] then [] else [Sym(if rs[0].1 then '>' else '<'), Word(rs[0].0)] + RedirLex(rs[1..])
  }

  function ExecLex(c: Cmd<string>): (ls: seq<Lexeme>)
    decreases c, 1
  {
    var b := Base(c);
    (if b.Exec? then WordLex(b.argv) else [Sym('(')] + BlockLex(b) + [Sym(')')]) + RedirLex(Outer(c))
  }

  /** A command that is not simple, as a line. */
  function BlockLex(b: Cmd<string>): (ls: seq<Lexeme>)
    requires b.Pipe? || b.List? || b.Back?
    decreases b, 0
  {
    match b
    case Pipe(l, r) => ExecLex(l) + [Sym('|')] + PipeLex(r)
    case List(l, r) => BacksLex(l) + [Sym(';')] + LineLex(r)
    case Back(sub) => BacksLex(sub) + [Sym('&')]
  }

  function PipeLex(c: Cmd<string>): (ls: seq<Lexeme>)
    decreases c, 2
  {
    if c.Pipe? then ExecLex(c.left) + [Sym('|')] + PipeLex(c.right) else ExecLex(c)
  }

  function BacksLex(c: Cmd<string>): (ls: seq<Lexeme>)
    decreases c, 3
  {
    if c.Back? then BacksLex(c.cmd) + [Sym('&')] else PipeLex(c)
  }

  function LineLex(c: Cmd<string>): (ls: seq<Lexeme>)
    decreases c, 4
  {
    if c.List? then BacksLex(c.left) + [Sym(';')] + LineLex(c.right) else BacksLex(c)
  }

  // ----- spelling -----

  /** The same lexemes, with any of the > spelled >>. */
  ghost predicate Respelled(ls: seq<Lexeme>, ls': seq<Lexeme>) {
    |ls'| == |ls| && forall k :: 0 <= k < |ls| ==> ls'[k] == ls[k] || (ls[k] == Sym('>') && ls'[k] == Sym('+'))
  }

  function Glyph(l: Lexeme): (s: string) {
    match l
    case Sym(c) => if c == '+' then ">>" else [c]
    case Word(w) => w
  }

  ghost predicate Blank(gap: string) {
    forall k :: 0 <= k < |gap| ==> gap[k] in WHITESPACE
  }

  /** Two lexemes that would run into each other have space between them. */
  ghost predicate Apart(a: Lexeme, gap: string, b: Lexeme) {
    gap != "" || !((a.Word? && b.Word?) || (a == Sym('>') && (b == Sym('>') || b == Sym('+'))))
  }

  ghost predicate WellSpaced(ls: seq<Lexeme>, gaps: seq<string>) {
    && |gaps| == |ls| && (forall k :: 0 <= k < |gaps| ==> Blank(gaps[k]))
    && (forall k :: 0 <= k < |ls| - 1 ==> Apart(ls[k], gaps[k], ls[k + 1]))
  }

  /** The text: every lexeme followed by its gap. */
  function Spell(ls: seq<Lexeme>, gaps: seq<string>): (s: string)
    requires |gaps| == |ls|
  {
    if ls == [] then "" else Glyph(ls[0]) + gaps[0] + Spell(ls[1..], gaps[1..])
  }

  // ----- reading lexemes -----

  ghost predicate Reads1(line: string, t: Tok, l: Lexeme) {
    match l
    case Sym(c) => t.kind == c || (c == '>' && t.kind == '+')
    case Word(w) => t.kind == 'a' && Text(line, t.span) == w
  }

  /** The tokens from a on spell these lexemes. */
  ghost predicate Reads(line: string, ts: seq<Tok>, ls: seq<Lexeme>) {
    |ls| <= |ts| && forall k :: 0 <= k < |ls| ==> Reads1(line, ts[k], ls[k])
  }

  /** Reading a concatenation is reading its parts in turn. */
  lemma {:induction false} ReadsConcat(line: string, ts: seq<Tok>, a: seq<Lexeme>, b: seq<Lexeme>)
    requires Reads(line, ts, a + b)
    ensures Reads(line, ts, a) && Reads(line, ts[|a|..], b)
  {
    hide Reads1;
    forall k | 0 <= k < |a| ensures Reads1(line, ts[k], a[k]) {
      assert (a + b)[k] == a[k];
    }
    forall k | 0 <= k < |b| ensures Reads1(line, ts[|a|..][k], b[k]) {
      assert (a + b)[|a| + k] == b[k];
    }
  }

  // ----- texts of parsed commands -----

  ghost function Text(line: string, w: Span): string {
    if w.q <= w.eq <= |line| then line[w.q..w.eq] else ""
  }

  /** The command with its words as text. */
  ghost function View(line: string, c: Cmd<Span>): (r: Cmd<string>) {
    match c
    case Exec(argv) => Exec(seq(|argv|, k requires 0 <= k < |argv| => Text(line, argv[k])))
    case Redir(sub, file, output) => Redir(View(line, sub), Text(line, file), output)
    case Pipe(l, r) => Pipe(View(line, l), View(line, r))
    case List(l, r) => List(View(line, l), View(line, r))
    case Back(sub) => Back(View(line, sub))
  }

  /** c, parsed from the front of ts, has the text t and leaves the tokens from n on. */
  ghost predicate ReadAs(line: string, r: Parse, ts: seq<Tok>, n: nat, t: Cmd<string>) {
    r.Ok? && n <= |ts| && r.rest == ts[n..] && View(line, r.cmd) == t
  }

  /** Redirections with these files. */
  ghost predicate RedirTexts(line: string, rs: seq<(Span, bool)>, fs: seq<(string, bool)>) {
    |rs| == |fs| && forall k :: 0 <= k < |rs| ==> Text(line, rs[k].0) == fs[k].0 && rs[k].1 == fs[k].1
  }

  lemma {:induction false} RedirsRead(line: string, rs: seq<(Span, bool)>, fs: seq<(string, bool)>, ts: seq<Tok>,
                                      more: seq<(string, bool)>)
    requires RedirTexts(line, rs, fs) && Reads(line, ts, RedirLex(more)) && !StartsRedir(ts[2 * |more|..])
    ensures var r := RedirsOf(rs, ts); r.Redirections? && r.rest == ts[2 * |more|..] &&
                                       RedirTexts(line, r.list, fs + more)
    decreases |more|
  {
    if more == [] {
      assert ts[0..] == ts && fs + more == fs;
    } else {
      var ls := RedirLex(more);
      assert Reads1(line, ts[0], ls[0]) && Reads1(line, ts[1], ls[1]);
      ReadsConcat(line, ts, ls[..2], RedirLex(more[1..]));
      assert ls == ls[..2] + RedirLex(more[1..]);
      assert ts[2..][2 * |more[1..]|..] == ts[2 * |more|..];
      var rs' := rs + [(ts[1].span, ts[0].kind != '<')];
      RedirsRead(line, rs', fs + [more[0]], ts[2..], more[1..]);
      assert fs + [more[0]] + more[1..] == fs + more;
    }
  }

  lemma {:induction false} WordsRead(line: string, args: seq<Span>, done: seq<string>, ts: seq<Tok>, words: seq<string>,
                                     fs: seq<(string, bool)>)
    requires |args| == |done| && (forall k :: 0 <= k < |args| ==> Text(line, args[k]) == done[k]) &&
             |done| + |words| < MAXARGS
    requires Reads(line, ts, WordLex(words) + RedirLex(fs)) && EndsWords(ts[|words| + 2 * |fs|..])
    requires words != [] || fs == []
    ensures ReadAs(line, WordsOf(args, [], ts), ts, |words| + 2 * |fs|, Wrap(Exec(done + words), fs))
    decreases |words|
  {
    hide View, Wrap, RedirLex, RedirsOf, Text;
    var ls := WordLex(words) + RedirLex(fs);
    if words == [] {
      assert done + words == done;
      NoWords(line, args, done, ts);
    } else {
      assert ls[0] == Word(words[0]) && Reads1(line, ts[0], ls[0]);
      assert !EndsWords(ts) && ts[0].kind == 'a';
      assert ls == [ls[0]] + (WordLex(words[1..]) + RedirLex(fs));
      ReadsConcat(line, ts, [ls[0]], WordLex(words[1..]) + RedirLex(fs));
      var args', done', rest := args + [ts[0].span], done + [words[0]], ts[1..];
      assert done' + words[1..] == done + words;
      if |words| > 1 {
        NoRedir(line, rest, words[1..], fs);
        WordsRead(line, args', done', rest, words[1..], fs);
        assert rest[|words[1..]| + 2 * |fs|..] == ts[|words| + 2 * |fs|..];
      } else {
        assert WordLex(words[1..]) + RedirLex(fs) == RedirLex(fs);
        LastWord(line, args', done', rest, fs);
        assert rest[2 * |fs|..] == ts[1 + 2 * |fs|..];
        assert done' == done + words;
      }
    }
  }

  lemma {:induction false} NoWords(line: string, args: seq<Span>, done: seq<string>, ts: seq<Tok>)
    requires |args| == |done| && (forall k :: 0 <= k < |args| ==> Text(line, args[k]) == done[k]) && EndsWords(ts[0..])
    ensures ReadAs(line, WordsOf(args, [], ts), ts, 0, Wrap(Exec(done), []))
  {
    assert ts[0..] == ts;
    assert View(line, Exec(args)).argv == done;
  }

  lemma {:induction false} NoRedir(line: string, ts: seq<Tok>, words: seq<string>, fs: seq<(string, bool)>)
    requires words != [] && Reads(line, ts, WordLex(words) + RedirLex(fs))
    ensures RedirsOf([], ts) == Redirections([], ts)
  {
    assert Reads1(line, ts[0], (WordLex(words) + RedirLex(fs))[0]);
  }

  /** After the last word come the redirections. */
  lemma {:induction false} LastWord(line: string, args: seq<Span>, done: seq<string>, ts: seq<Tok>,
                                    fs: seq<(string, bool)>)
    requires |args| == |done| && forall k :: 0 <= k < |args| ==> Text(line, args[k]) == done[k]
    requires Reads(line, ts, RedirLex(fs)) && EndsWords(ts[2 * |fs|..])
    ensures var more := RedirsOf([], ts);
            more.Redirections? && ReadAs(line, WordsOf(args, more.list, more.rest), ts, 2 * |fs|, Wrap(Exec(done), fs))
  {
    RedirsRead(line, [], [], ts, fs);
    assert [] + fs == fs;
    var more := RedirsOf([], ts);
    ViewWrap(line, Exec(args), more.list, fs);
    assert View(line, Exec(args)).argv == done;
  }

  lemma {:induction false} ViewWrap(line: string, c: Cmd<Span>, rs: seq<(Span, bool)>, fs: seq<(string, bool)>)
    requires RedirTexts(line, rs, fs)
    ensures View(line, Wrap(c, rs)) == Wrap(View(line, c), fs)
  {
    if rs != [] {
      ViewWrap(line, c, rs[..|rs| - 1], fs[..|fs| - 1]);
    }
  }

  // ----- each level of the grammar reads what it prints -----

  /** What may follow a whole line, a command before ';', a pipe, a simple command. */
  predicate EndsLine(ts: seq<Tok>) {
    ts == [] || ts[0].kind == ')'
  }

  lemma {:induction false} ExecReads(line: string, ts: seq<Tok>, c: Cmd<string>)
    requires Printable(c) && Reads(line, ts, ExecLex(c)) && EndsWords(ts[|ExecLex(c)|..])
    ensures ReadAs(line, ExecOf(ts), ts, |ExecLex(c)|, c)
    decreases c, 2
  {
    var b, fs := Base(c), Outer(c);
    WrapBase(c);
    if b.Exec? {
      assert ExecLex(c) == WordLex(b.argv) + RedirLex(fs);
      SimpleReads(line, ts, b.argv, fs);
    } else {
      var inner := BlockLex(b);
      BlockReads(line, ts, b, inner, fs);
      BodyReads(line, ts[1..], b);
      AfterBlock(line, ts, b, inner, fs);
    }
  }

  lemma {:induction false} SimpleReads(line: string, ts: seq<Tok>, argv: seq<string>, fs: seq<(string, bool)>)
    requires |argv| < MAXARGS && Reads(line, ts, WordLex(argv) + RedirLex(fs)) && EndsWords(ts[|argv| + 2 * |fs|..])
    ensures ReadAs(line, ExecOf(ts), ts, |argv| + 2 * |fs|, Wrap(Exec(argv), fs))
  {
    StartOf(line, ts, argv, fs);
    if argv == [] {
      RedirsOnly(line, ts, fs);
    } else {
      hide Wrap, View, WordsOf, RedirLex, WordLex;
      NoRedir(line, ts, argv, fs);
      WordsRead(line, [], [], ts, argv, fs);
      EmptyConcat(argv);
    }
  }

  /** A simple command without words. */
  lemma {:induction false} RedirsOnly(line: string, ts: seq<Tok>, fs: seq<(string, bool)>)
    requires Reads(line, ts, RedirLex(fs)) && EndsWords(ts[2 * |fs|..]) && !StartsWith(ts, '(')
    ensures ReadAs(line, ExecOf(ts), ts, 2 * |fs|, Wrap(Exec([]), fs))
  {
    hide Wrap, View, WordsOf, RedirLex;
    LastWord(line, [], [], ts, fs);
  }

  /** A simple command does not start with a parenthesis. */
  lemma {:induction false} StartOf(line: string, ts: seq<Tok>, argv: seq<string>, fs: seq<(string, bool)>)
    requires Reads(line, ts, WordLex(argv) + RedirLex(fs)) && EndsWords(ts[|argv| + 2 * |fs|..])
    ensures !StartsWith(ts, '(')
  {
    hide WordLex, RedirLex, Reads1;
    HeadOf(argv, fs);
    FirstIs(line, ts, WordLex(argv) + RedirLex(fs));
  }

  lemma {:induction false} FirstIs(line: string, ts: seq<Tok>, ls: seq<Lexeme>)
    requires Reads(line, ts, ls) && EndsWords(ts[|ls|..]) && (ls != [] ==> ls[0] != Sym('('))
    ensures !StartsWith(ts, '(')
  {
    if ls == [] {
      assert ts[0..] == ts;
    } else {
      assert Reads1(line, ts[0], ls[0]);
    }
  }

  lemma {:induction false} HeadOf(argv: seq<string>, fs: seq<(string, bool)>)
    ensures var ls := WordLex(argv) + RedirLex(fs); ls != [] ==> ls[0] != Sym('(')
  {
  }

  lemma {:induction false} EmptyConcat<T>(s: seq<T>)
    ensures [] + s == s
  {
  }

  lemma {:induction false} BlockReads(line: string, ts: seq<Tok>, b: Cmd<string>, inner: seq<Lexeme>,
                                      fs: seq<(string, bool)>)
    requires Reads(line, ts, [Sym('(')] + inner + [Sym(')')] + RedirLex(fs))
    ensures StartsWith(ts, '(') && Reads(line, ts[1..], inner) && EndsLine(ts[1..][|inner|..]) &&
            StartsWith(ts[1..][|inner|..], ')')
    ensures Reads(line, ts[1..][|inner|..][1..], RedirLex(fs))
  {
    hide RedirLex;
    var close := [Sym(')')];
    var ls := [Sym('(')] + inner + close + RedirLex(fs);
    assert ls == [Sym('(')] + (inner + (close + RedirLex(fs)));
    ReadsConcat(line, ts, [Sym('(')], inner + (close + RedirLex(fs)));
    ReadsConcat(line, ts[1..], inner, close + RedirLex(fs));
    ReadsConcat(line, ts[1..][|inner|..], close, RedirLex(fs));
    assert Reads1(line, ts[0], Sym('(')) && Reads1(line, ts[1..][|inner|..][0], close[0]);
  }

  lemma {:induction false} AfterBlock(line: string, ts: seq<Tok>, b: Cmd<string>, inner: seq<Lexeme>,
                                      fs: seq<(string, bool)>)
    requires StartsWith(ts, '(') && |inner| + 1 <= |ts| && StartsWith(ts[1..][|inner|..], ')')
    requires Reads(line, ts[1..][|inner|..][1..], RedirLex(fs)) && |inner| + 2 + 2 * |fs| <= |ts| &&
             EndsWords(ts[|inner| + 2 + 2 * |fs|..])
    requires ReadAs(line, LineOf(ts[1..]), ts[1..], |inner|, b)
    ensures ReadAs(line, ExecOf(ts), ts, |inner| + 2 + 2 * |fs|, Wrap(b, fs))
  {
    var rest := ts[1..][|inner|..][1..];
    assert rest[2 * |fs|..] == ts[|inner| + 2 + 2 * |fs|..];
    RedirsRead(line, [], [], rest, fs);
    assert [] + fs == fs;
    ViewWrap(line, LineOf(ts[1..]).cmd, RedirsOf([], rest).list, fs);
  }

  /** A pipe is over. */
  predicate EndsPipe(ts: seq<Tok>) {
    EndsWords(ts) && !StartsWith(ts, '|')
  }

  lemma {:induction false} PipeSplit(line: string, ts: seq<Tok>, l: Cmd<string>, r: Cmd<string>)
    requires Reads(line, ts, ExecLex(l) + [Sym('|')] + PipeLex(r))
    ensures Reads(line, ts, ExecLex(l)) && StartsWith(ts[|ExecLex(l)|..], '|') && EndsWords(ts[|ExecLex(l)|..])
    ensures Reads(line, ts[|ExecLex(l)| + 1..], PipeLex(r))
  {
    hide ExecLex, PipeLex;
    SymSplit(line, ts, ExecLex(l), '|', PipeLex(r));
  }

  lemma {:induction false} SymSplit(line: string, ts: seq<Tok>, a: seq<Lexeme>, c: char, b: seq<Lexeme>)
    requires Reads(line, ts, a + [Sym(c)] + b) && c != '>'
    ensures Reads(line, ts, a) && StartsWith(ts[|a|..], c) && Reads(line, ts[|a| + 1..], b)
  {
    ReadsConcat(line, ts, a + [Sym(c)], b);
    ReadsConcat(line, ts, a, [Sym(c)]);
    assert Reads1(line, ts[|a|..][0], [Sym(c)][0]);
  }

  lemma {:induction false} PipeJoin(line: string, ts: seq<Tok>, n: nat, m: nat, l: Cmd<string>, r: Cmd<string>)
    requires n + 1 <= |ts| && ReadAs(line, ExecOf(ts), ts, n, l) && StartsWith(ts[n..], '|') &&
             ReadAs(line, PipeOf(ts[n + 1..]), ts[n + 1..], m, r)
    ensures ReadAs(line, PipeOf(ts), ts, n + 1 + m, Pipe(l, r))
  {
    hide ExecOf;
    assert ts[n..][1..] == ts[n + 1..];
    assert ts[n + 1..][m..] == ts[n + 1 + m..];
  }

  lemma {:induction false} PipeReads(line: string, ts: seq<Tok>, c: Cmd<string>)
    requires Printable(c) && Reads(line, ts, PipeLex(c)) && EndsPipe(ts[|PipeLex(c)|..])
    ensures ReadAs(line, PipeOf(ts), ts, |PipeLex(c)|, c)
    decreases c, 3
  {
    hide ExecLex, View, ExecOf;
    if c.Pipe? {
      PipeSplit(line, ts, c.left, c.right);
      var n := |ExecLex(c.left)|;
      assert ts[n + 1..][|PipeLex(c.right)|..] == ts[|PipeLex(c)|..];
      ExecReads(line, ts, c.left);
      PipeReads(line, ts[n + 1..], c.right);
      PipeJoin(line, ts, n, |PipeLex(c.right)|, c.left, c.right);
    } else {
      ExecReads(line, ts, c);
    }
  }

  /** What parseline has after the pipe and the '&'s it has read so far. */
  ghost predicate BackAs(line: string, ts: seq<Tok>, n: nat, got: Cmd<Span>, c: Cmd<string>) {
    n <= |ts| && PipeOf(ts).Ok? && BacksOf(PipeOf(ts).cmd, PipeOf(ts).rest) == BacksOf(got, ts[n..]) &&
      View(line, got) == c
  }

  lemma {:induction false} BacksReads(line: string, ts: seq<Tok>, c: Cmd<string>) returns (got: Cmd<Span>)
    requires Printable(c) && Reads(line, ts, BacksLex(c)) && EndsPipe(ts[|BacksLex(c)|..])
    ensures BackAs(line, ts, |BacksLex(c)|, got, c)
    decreases c, 4
  {
    hide PipeOf, PipeLex, ExecLex;
    if c.Back? {
      var n := |BacksLex(c.cmd)|;
      ReadsConcat(line, ts, BacksLex(c.cmd), [Sym('&')]);
      assert Reads1(line, ts[n..][0], [Sym('&')][0]);
      var sub := BacksReads(line, ts, c.cmd);
      got := Back(sub);
      assert ts[n..][1..] == ts[n + 1..];
    } else {
      PipeReads(line, ts, c);
      got := PipeOf(ts).cmd;
    }
  }

  /** Nothing more follows what was read: it is the line. */
  lemma {:induction false} LineDone(line: string, ts: seq<Tok>, n: nat, got: Cmd<Span>, c: Cmd<string>)
    requires BackAs(line, ts, n, got, c) && EndsLine(ts[n..])
    ensures ReadAs(line, LineOf(ts), ts, n, c)
  {
    hide PipeOf;
  }

  lemma {:induction false} LineJoin(line: string, ts: seq<Tok>, n: nat, got: Cmd<Span>, l: Cmd<string>, m: nat,
                                    r: Cmd<string>)
    requires n + 1 <= |ts| && BackAs(line, ts, n, got, l) && StartsWith(ts[n..], ';') &&
             ReadAs(line, LineOf(ts[n + 1..]), ts[n + 1..], m, r)
    ensures ReadAs(line, LineOf(ts), ts, n + 1 + m, List(l, r))
  {
    hide PipeOf;
    assert ts[n..][1..] == ts[n + 1..];
    assert ts[n + 1..][m..] == ts[n + 1 + m..];
  }

  lemma {:induction false} LineReads(line: string, ts: seq<Tok>, c: Cmd<string>)
    requires Printable(c) && Reads(line, ts, LineLex(c)) && EndsLine(ts[|LineLex(c)|..])
    ensures ReadAs(line, LineOf(ts), ts, |LineLex(c)|, c)
    decreases c, 5
  {
    hide PipeOf, PipeLex, ExecLex, BacksLex, LineOf, View;
    if c.List? {
      var n := |BacksLex(c.left)|;
      SymSplit(line, ts, BacksLex(c.left), ';', LineLex(c.right));
      assert ts[n + 1..][|LineLex(c.right)|..] == ts[|LineLex(c)|..];
      var got := BacksReads(line, ts, c.left);
      LineReads(line, ts[n + 1..], c.right);
      LineJoin(line, ts, n, got, c.left, |LineLex(c.right)|, c.right);
    } else {
      var got := BacksReads(line, ts, c);
      LineDone(line, ts, |BacksLex(c)|, got, c);
    }
  }

  /** The inside of a parenthesis is a line. */
  lemma {:induction false} BodyReads(line: string, ts: seq<Tok>, b: Cmd<string>)
    requires (b.Pipe? || b.List? || b.Back?) && Printable(b) && Reads(line, ts, BlockLex(b)) &&
             EndsLine(ts[|BlockLex(b)|..])
    ensures ReadAs(line, LineOf(ts), ts, |BlockLex(b)|, b)
    decreases b, 1
  {
    match b
    case Pipe(l, r) => BodyPipe(line, ts, l, r);
    case List(l, r) => BodyList(line, ts, l, r);
    case Back(sub) => BodyBack(line, ts, sub);
  }

  lemma {:induction false} BodyPipe(line: string, ts: seq<Tok>, l: Cmd<string>, r: Cmd<string>)
    requires Printable(l) && Printable(r) && Reads(line, ts, ExecLex(l) + [Sym('|')] + PipeLex(r))
    requires EndsLine(ts[|ExecLex(l)| + 1 + |PipeLex(r)|..])
    ensures ReadAs(line, LineOf(ts), ts, |ExecLex(l)| + 1 + |PipeLex(r)|, Pipe(l, r))
    decreases Pipe(l, r), 0
  {
    hide PipeOf, PipeLex, ExecLex, BacksLex, LineLex, LineOf, ExecOf, View, Printable;
    PipeSplit(line, ts, l, r);
    var n, m := |ExecLex(l)|, |PipeLex(r)|;
    assert ts[n + 1..][m..] == ts[n + 1 + m..];
    ExecReads(line, ts, l);
    PipeReads(line, ts[n + 1..], r);
    PipeJoin(line, ts, n, m, l, r);
    LineDone(line, ts, n + 1 + m, PipeOf(ts).cmd, Pipe(l, r));
  }

  lemma {:induction false} BodyList(line: string, ts: seq<Tok>, l: Cmd<string>, r: Cmd<string>)
    requires Printable(l) && Printable(r) && Reads(line, ts, BacksLex(l) + [Sym(';')] + LineLex(r))
    requires EndsLine(ts[|BacksLex(l)| + 1 + |LineLex(r)|..])
    ensures ReadAs(line, LineOf(ts), ts, |BacksLex(l)| + 1 + |LineLex(r)|, List(l, r))
    decreases List(l, r), 0
  {
    hide PipeOf, PipeLex, ExecLex, BacksLex, LineLex, LineOf, ExecOf, View, Printable;
    var n, m := |BacksLex(l)|, |LineLex(r)|;
    SymSplit(line, ts, BacksLex(l), ';', LineLex(r));
    assert ts[n + 1..][m..] == ts[n + 1 + m..];
    var got := BacksReads(line, ts, l);
    LineReads(line, ts[n + 1..], r);
    LineJoin(line, ts, n, got, l, m, r);
  }

  lemma {:induction false} BodyBack(line: string, ts: seq<Tok>, sub: Cmd<string>)
    requires Printable(sub) && Reads(line, ts, BacksLex(sub) + [Sym('&')]) && EndsLine(ts[|BacksLex(sub)| + 1..])
    ensures ReadAs(line, LineOf(ts), ts, |BacksLex(sub)| + 1, Back(sub))
    decreases Back(sub), 0
  {
    hide PipeOf, PipeLex, ExecLex, BacksLex, LineLex, LineOf, ExecOf, Printable;
    var n := |BacksLex(sub)|;
    ReadsConcat(line, ts, BacksLex(sub), [Sym('&')]);
    assert Reads1(line, ts[n..][0], [Sym('&')][0]);
    var got := BacksReads(line, ts, sub);
    assert ts[n..][1..] == ts[n + 1..];
    LineDone(line, ts, n + 1, Back(got), Back(sub));
  }

  // ----- lexing what was spelled -----

  ghost predicate GoodLexeme(l: Lexeme) {
    match l
    case Sym(c) => c in SYMBOLS || c == '+'
    case Word(w) => GoodWord(w)
  }

  /** The token is this very lexeme. */
  ghost predicate Spelt(line: string, t: Tok, l: Lexeme) {
    match l
    case Sym(c) => t.kind == c
    case Word(w) => t.kind == 'a' && Text(line, t.span) == w
  }

  /** The character tables of the source are the predicates of the lexer. */
  lemma Tables(c: char)
    ensures IsSpace(c) <==> c in WHITESPACE
    ensures IsSymbol(c) <==> c in SYMBOLS
  {
    assert WHITESPACE == [' ', '\t', '\r', '\n', '\U{000B}'];
    assert SYMBOLS == ['<', '|', '>', '&', ';', '(', ')'];
  }

  /** What a good lexeme is spelled with. */
  lemma {:induction false} GlyphIs(l: Lexeme)
    requires GoodLexeme(l)
    ensures Glyph(l) != "" && !IsSpace(Glyph(l)[0]) && Glyph(l)[0] != NUL && NUL !in Glyph(l)
    ensures if l.Word? then forall k :: 0 <= k < |l.s| ==> InWord(l.s[k]) else IsSymbol(Glyph(l)[0])
    ensures Glyph(l)[0] == '>' ==> l == Sym('>') || l == Sym('+')
  {
    if l.Word? {
      forall k | 0 <= k < |l.s| ensures InWord(l.s[k]) {
        Tables(l.s[k]);
      }
    } else {
      Tables(l.c);
    }
  }

  /** The text at s is this piece and then the rest. */
  ghost predicate TextAt(line: string, s: nat, piece: string, rest: string) {
    s + |piece| <= |line| && line[s..s + |piece|] == piece && line[s + |piece|..] == rest
  }

  lemma {:induction false} Pieces(line: string, s: nat, w: string, gap: string, rest: string)
    requires s <= |line| && line[s..] == w + gap + rest
    ensures TextAt(line, s, w, gap + rest) && TextAt(line, s + |w|, gap, rest)
  {
    var tail := line[s..];
    assert tail[..|w|] == w && tail[|w|..] == gap + rest;
    assert tail[|w|..][..|gap|] == gap && tail[|w| + |gap|..] == rest;
  }

  /** What follows a glyph does not run into it: white space, another glyph, or the end. */
  lemma {:induction false} NextChar(line: string, e: nat, ls: seq<Lexeme>, gaps: seq<string>)
    requires ls != [] && WellSpaced(ls, gaps) && (forall k :: 0 <= k < |ls| ==> GoodLexeme(ls[k]))
    requires e < |line| && line[e..] == gaps[0] + Spell(ls[1..], gaps[1..])
    ensures (ls[0].Word? ==> !InWord(line[e])) && (ls[0] == Sym('>') ==> line[e] != '>')
  {
    hide GoodLexeme;
    if gaps[0] != "" {
      assert line[e] == line[e..][0] == gaps[0][0];
      assert Blank(gaps[0]);
      Tables(line[e]);
    } else {
      assert |ls| > 1 && ls[1..][0] == ls[1];
      GlyphIs(ls[1]);
      assert line[e] == line[e..][0] == Glyph(ls[1])[0];
      assert Apart(ls[0], gaps[0], ls[0 + 1]);
    }
  }

  lemma {:induction false} TokenIs(line: string, s: nat, l: Lexeme)
    requires GoodLexeme(l) && s + |Glyph(l)| <= |line| && line[s..s + |Glyph(l)|] == Glyph(l)
    requires s + |Glyph(l)| < |line| ==>
               (l.Word? ==> !InWord(line[s + |Glyph(l)|])) && (l == Sym('>') ==> line[s + |Glyph(l)|] != '>')
    ensures s < |line| && !IsSpace(line[s]) && line[s] != NUL
    ensures Spelt(line, TokAt(line, s), l) && TokAt(line, s).span.eq == s + |Glyph(l)|
  {
    hide GoodLexeme;
    var w, e := Glyph(l), s + |Glyph(l)|;
    GlyphIs(l);
    assert line[s] == line[s..e][0];
    if l.Word? {
      WholeWord(line, s, w);
    } else if l.c == '+' {
      assert line[s + 1] == line[s..e][1];
    }
  }

  /** The first lexeme is the first token. */
  lemma {:induction false} FirstToken(line: string, s: nat, ls: seq<Lexeme>, gaps: seq<string>)
    requires s <= |line| && ls != [] && WellSpaced(ls, gaps) && (forall k :: 0 <= k < |ls| ==> GoodLexeme(ls[k]))
    requires line[s..] == Spell(ls, gaps)
    ensures s < |line| && !IsSpace(line[s]) && line[s] != NUL
    ensures Spelt(line, TokAt(line, s), ls[0]) && TokAt(line, s).span.eq == s + |Glyph(ls[0])|
    ensures TextAt(line, s + |Glyph(ls[0])|, gaps[0], Spell(ls[1..], gaps[1..]))
  {
    hide GoodLexeme, TokAt, Glyph, Spelt, Apart, Blank;
    var e := s + |Glyph(ls[0])|;
    Pieces(line, s, Glyph(ls[0]), gaps[0], Spell(ls[1..], gaps[1..]));
    if e < |line| {
      NextChar(line, e, ls, gaps);
    }
    TokenIs(line, s, ls[0]);
  }

  lemma {:induction false} WholeWord(line: string, s: nat, w: string)
    requires s + |w| <= |line| && w != "" && line[s..s + |w|] == w && (forall k :: 0 <= k < |w| ==> InWord(w[k]))
    requires s + |w| < |line| ==> !InWord(line[s + |w|])
    ensures WordEnd(line, s) == s + |w| && !IsSymbol(line[s]) && line[s] != '>'
  {
    forall k | s <= k < s + |w| ensures InWord(line[k]) {
      assert line[k] == line[s..s + |w|][k - s];
    }
  }

  lemma {:induction false} OneSpace(line: string, e: nat)
    requires e < |line| && IsSpace(line[e]) && Clean(line)
    ensures Lex(line, e) == Lex(line, e + 1)
  {
    assert Skip(line, e) == Skip(line, e + 1);
  }

  /** White space is passed over. */
  lemma {:induction false} GapSkipped(line: string, e: nat, gap: string)
    requires e + |gap| <= |line| && Clean(line) && Blank(gap) && line[e..e + |gap|] == gap
    ensures Lex(line, e) == Lex(line, e + |gap|)
    decreases |gap|
  {
    hide Lex;
    if gap != "" {
      assert line[e] == line[e..e + |gap|][0];
      Tables(line[e]);
      OneSpace(line, e);
      assert line[e + 1..e + |gap|] == gap[1..];
      GapSkipped(line, e + 1, gap[1..]);
    }
  }

  lemma {:induction false} SpellReads(line: string, s: nat, ls: seq<Lexeme>, gaps: seq<string>)
    requires s <= |line| && Clean(line) && WellSpaced(ls, gaps) && (forall k :: 0 <= k < |ls| ==> GoodLexeme(ls[k]))
    requires line[s..] == Spell(ls, gaps)
    ensures |Lex(line, s)| == |ls| && forall k :: 0 <= k < |ls| ==> Spelt(line, Lex(line, s)[k], ls[k])
    decreases |ls|
  {
    hide GoodLexeme, TokAt, Glyph, Spelt, Apart, Blank, Lex;
    if ls == [] {
      assert s == |line|;
      LexFirst(line, s);
    } else {
      FirstToken(line, s, ls, gaps);
      var e := s + |Glyph(ls[0])|;
      RestSpaced(ls, gaps);
      GapSkipped(line, e, gaps[0]);
      SpellReads(line, e + |gaps[0]|, ls[1..], gaps[1..]);
      MoreRead(line, s, e, ls);
    }
  }

  lemma {:induction false} RestSpaced(ls: seq<Lexeme>, gaps: seq<string>)
    requires WellSpaced(ls, gaps) && ls != []
    ensures WellSpaced(ls[1..], gaps[1..])
  {
    hide Blank, Apart;
    forall k | 0 <= k < |ls[1..]| - 1 ensures Apart(ls[1..][k], gaps[1..][k], ls[1..][k + 1]) {
      assert Apart(ls[k + 1], gaps[k + 1], ls[k + 1 + 1]);
    }
  }

  lemma {:induction false} MoreRead(line: string, s: nat, e: nat, ls: seq<Lexeme>)
    requires s < |line| && Clean(line) && !IsSpace(line[s]) && line[s] != NUL && ls != []
    requires e == TokAt(line, s).span.eq && Spelt(line, TokAt(line, s), ls[0]) && |Lex(line, e)| == |ls| - 1
    requires forall k :: 0 <= k < |ls| - 1 ==> Spelt(line, Lex(line, e)[k], ls[1..][k])
    ensures |Lex(line, s)| == |ls| && forall k :: 0 <= k < |ls| ==> Spelt(line, Lex(line, s)[k], ls[k])
  {
    assert Skip(line, s) == s;
    LexFirst(line, s);
    hide Skip, TokAt, Spelt, Lex;
    var ts := Lex(line, s);
    forall k | 0 <= k < |ls| ensures Spelt(line, ts[k], ls[k]) {
      if k > 0 {
        assert ts[k] == ts[1..][k - 1] && ls[k] == ls[1..][k - 1];
      }
    }
  }

  // ----- the round trip -----

  ghost predicate GoodAll(ls: seq<Lexeme>) {
    forall k :: 0 <= k < |ls| ==> GoodLexeme(ls[k])
  }

  lemma {:induction false} WordLexGood(argv: seq<string>)
    requires forall k :: 0 <= k < |argv| ==> GoodWord(argv[k])
    ensures GoodAll(WordLex(argv))
  {
    if argv != [] {
      WordLexGood(argv[1..]);
    }
  }

  lemma {:induction false} RedirLexGood(rs: seq<(string, bool)>)
    requires forall k :: 0 <= k < |rs| ==> GoodWord(rs[k].0)
    ensures GoodAll(RedirLex(rs))
  {
    if rs != [] {
      RedirLexGood(rs[1..]);
    }
  }

  lemma {:induction false} ExecGood(c: Cmd<string>)
    requires Printable(c)
    ensures GoodAll(ExecLex(c))
    decreases c, 1
  {
    hide GoodLexeme;
    var b := Base(c);
    WrapBase(c);
    RedirLexGood(Outer(c));
    if b.Exec? {
      WordLexGood(b.argv);
    } else {
      BlockGood(b);
      assert GoodLexeme(Sym('(')) && GoodLexeme(Sym(')')) by {
        Symbols();
      }
    }
  }

  lemma {:induction false} Symbols()
    ensures GoodLexeme(Sym('(')) && GoodLexeme(Sym(')')) && GoodLexeme(Sym('|')) && GoodLexeme(Sym(';')) &&
            GoodLexeme(Sym('&'))
  {
  }

  lemma {:induction false} BlockGood(b: Cmd<string>)
    requires Printable(b) && (b.Pipe? || b.List? || b.Back?)
    ensures GoodAll(BlockLex(b))
    decreases b, 0
  {
    hide GoodLexeme, ExecLex, PipeLex, BacksLex, LineLex;
    Symbols();
    match b
    case Pipe(l, r) => ExecGood(l); PipeGood(r);
    case List(l, r) => BacksGood(l); LineGood(r);
    case Back(sub) => BacksGood(sub);
  }

  lemma {:induction false} PipeGood(c: Cmd<string>)
    requires Printable(c)
    ensures GoodAll(PipeLex(c))
    decreases c, 2
  {
    hide GoodLexeme, ExecLex;
    Symbols();
    if c.Pipe? {
      ExecGood(c.left);
      PipeGood(c.right);
    } else {
      ExecGood(c);
    }
  }

  lemma {:induction false} BacksGood(c: Cmd<string>)
    requires Printable(c)
    ensures GoodAll(BacksLex(c))
    decreases c, 3
  {
    hide GoodLexeme, PipeLex;
    Symbols();
    if c.Back? {
      BacksGood(c.cmd);
    } else {
      PipeGood(c);
    }
  }

  lemma {:induction false} LineGood(c: Cmd<string>)
    requires Printable(c)
    ensures GoodAll(LineLex(c))
    decreases c, 4
  {
    hide GoodLexeme, BacksLex;
    Symbols();
    if c.List? {
      BacksGood(c.left);
      LineGood(c.right);
    } else {
      BacksGood(c);
    }
  }

  lemma {:induction false} SpellClean(ls: seq<Lexeme>, gaps: seq<string>)
    requires GoodAll(ls) && |gaps| == |ls| && forall k :: 0 <= k < |gaps| ==> Blank(gaps[k])
    ensures Clean(Spell(ls, gaps))
  {
    if ls != [] {
      SpellClean(ls[1..], gaps[1..]);
      GlyphIs(ls[0]);
      BlankClean(gaps[0]);
    }
  }

  lemma BlankClean(gap: string)
    requires Blank(gap)
    ensures Clean(gap)
  {
    if NUL in gap {
      var k :| 0 <= k < |gap| && gap[k] == NUL;
      Tables(gap[k]);
    }
  }

  lemma {:induction false} RespelledReads(line: string, ts: seq<Tok>, ls: seq<Lexeme>, ls': seq<Lexeme>)
    requires Respelled(ls, ls') && |ts| == |ls'| && forall k :: 0 <= k < |ls'| ==> Spelt(line, ts[k], ls'[k])
    ensures Reads(line, ts, ls)
  {
    forall k | 0 <= k < |ls| ensures Reads1(line, ts[k], ls[k]) {
      assert Spelt(line, ts[k], ls'[k]);
    }
  }

  /**
   Parsing the printed form of any command gives the command back, whatever the white space and
   whichever way each output redirection is spelled.
   */
  lemma {:induction false} RoundTrip(c: Cmd<string>, ls: seq<Lexeme>, lead: string, gaps: seq<string>)
    requires Printable(c) && Respelled(LineLex(c), ls) && WellSpaced(ls, gaps) && Blank(lead)
    ensures Clean(lead + Spell(ls, gaps))
    ensures var line := lead + Spell(ls, gaps); var r := CommandOf(line); r.Some? && View(line, r.value) == c
  {
    hide LineLex, LineOf, View, Printable;
    LineGood(c);
    assert GoodAll(ls) by {
      forall k | 0 <= k < |ls| ensures GoodLexeme(ls[k]) {
        assert GoodLexeme(LineLex(c)[k]);
      }
    }
    SpellClean(ls, gaps);
    BlankClean(lead);
    var line := lead + Spell(ls, gaps);
    assert line[|lead|..] == Spell(ls, gaps);
    SpellReads(line, |lead|, ls, gaps);
    GapSkipped(line, 0, lead);
    var ts := Lex(line, 0);
    RespelledReads(line, ts, LineLex(c), ls);
    assert ts[|LineLex(c)|..] == [];
    LineReads(line, ts, c);
  }
}
