/**
 Nothing in a line is lost or made up by the parser (sh.c): every word, redirection and
 operator of an accepted line is in the command once, and parentheses balance.
 */
module ShellTally {

  import opened Basics
  import opened Shell

  datatype Item = Named(w: Span) | Input | Output | Bar | Semi | Amp

  /** What a token counts as; parentheses only group. */
  ghost function Worth(t: Tok): Option<Item> {
    if t.kind == 'a' then Some(Named(t.span))
    else if t.kind == '<' then Some(Input)
    else if t.kind == '>' || t.kind == '+' then Some(Output)
    else if t.kind == '|' then Some(Bar)
    else if t.kind == ';' then Some(Semi)
    else if t.kind == '&' then Some(Amp)
    else None
  }

  /** How often an item is among the tokens. */
  ghost function Items(ts: seq<Tok>, x: Item): nat {
    if ts == [] then 0 else One(Worth(ts[0]) == Some(x)) + Items(ts[1..], x)
  }

  /** How many parentheses are left open. */
  ghost function Depth(ts: seq<Tok>): int {
    if ts == [] then 0
    else (if ts[0].kind == '(' then 1 else if ts[0].kind == ')' then -1 else 0) + Depth(ts[1..])
  }

  ghost function Words(args: seq<Span>, x: Item): nat {
    if args == [] then 0 else Words(args[..|args| - 1], x) + One(x == Named(args[|args| - 1]))
  }

  /** A redirection counts as itself and its file. */
  ghost function FileScore(file: Span, output: bool, x: Item): nat {
    One(x == Named(file)) + One(x == if output then Output else Input)
  }

  ghost function Files(rs: seq<(Span, bool)>, x: Item): nat {
    if rs == [] then 0 else Files(rs[..|rs| - 1], x) + FileScore(rs[|rs| - 1].0, rs[|rs| - 1].1, x)
  }

  /** How often an item is in a command. */
  ghost function Score(c: Cmd<Span>, x: Item): nat {
    match c
    case Exec(argv) => Words(argv, x)
    case Redir(sub, file, output) => Score(sub, x) + FileScore(file, output, x)
    case Pipe(l, r) => Score(l, x) + One(x == Bar) + Score(r, x)
    case List(l, r) => Score(l, x) + One(x == Semi) + Score(r, x)
    case Back(sub) => Score(sub, x) + One(x == Amp)
  }

  /** From ts to rest the item has been read n times, and as many parentheses closed as opened. */
  ghost predicate Took(ts: seq<Tok>, rest: seq<Tok>, x: Item, n: int) {
    Items(ts, x) == n + Items(rest, x) && Depth(ts) == Depth(rest)
  }

  lemma {:induction false} WrapScore(c: Cmd<Span>, rs: seq<(Span, bool)>, x: Item)
    ensures Score(Wrap(c, rs), x) == Score(c, x) + Files(rs, x)
  {
    if rs != [] {
      WrapScore(c, rs[..|rs| - 1], x);
    }
  }

  lemma {:induction false} RedirsTally(rs: seq<(Span, bool)>, ts: seq<Tok>, x: Item)
    requires RedirsOf(rs, ts).Redirections?
    ensures Took(ts, RedirsOf(rs, ts).rest, x, Files(RedirsOf(rs, ts).list, x) - Files(rs, x))
    decreases |ts|
  {
    if StartsRedir(ts) {
      var rs' := rs + [(ts[1].span, ts[0].kind != '<')];
      assert rs'[..|rs|] == rs;
      assert ts[1..][1..] == ts[2..] && ts[1..][0] == ts[1];
      RedirsTally(rs', ts[2..], x);
    }
  }

  lemma {:induction false} WordsTally(args: seq<Span>, rs: seq<(Span, bool)>, ts: seq<Tok>, x: Item)
    requires WordsOf(args, rs, ts).Ok?
    ensures Took(ts, WordsOf(args, rs, ts).rest, x, Score(WordsOf(args, rs, ts).cmd, x) - Words(args, x) - Files(rs, x))
    decreases |ts|
  {
    if EndsWords(ts) {
      WrapScore(Exec(args), rs, x);
    } else {
      var args' := args + [ts[0].span];
      assert args'[..|args|] == args;
      RedirsTally(rs, ts[1..], x);
      var more := RedirsOf(rs, ts[1..]);
      WordsTally(args', more.list, more.rest, x);
    }
  }

  lemma {:induction false} ExecTally(ts: seq<Tok>, x: Item)
    requires ExecOf(ts).Ok?
    ensures Took(ts, ExecOf(ts).rest, x, Score(ExecOf(ts).cmd, x))
    decreases |ts|, 0
  {
    if StartsWith(ts, '(') {
      LineTally(ts[1..], x);
      var inner := LineOf(ts[1..]);
      RedirsTally([], inner.rest[1..], x);
      WrapScore(inner.cmd, RedirsOf([], inner.rest[1..]).list, x);
    } else {
      RedirsTally([], ts, x);
      var first := RedirsOf([], ts);
      WordsTally([], first.list, first.rest, x);
    }
  }

  lemma {:induction false} PipeTally(ts: seq<Tok>, x: Item)
    requires PipeOf(ts).Ok?
    ensures Took(ts, PipeOf(ts).rest, x, Score(PipeOf(ts).cmd, x))
    decreases |ts|, 1
  {
    ExecTally(ts, x);
    var left := ExecOf(ts);
    if StartsWith(left.rest, '|') {
      PipeTally(left.rest[1..], x);
    }
  }

  lemma {:induction false} BacksTally(c: Cmd<Span>, ts: seq<Tok>, x: Item)
    ensures Took(ts, BacksOf(c, ts).rest, x, Score(BacksOf(c, ts).cmd, x) - Score(c, x))
    decreases |ts|
  {
    if StartsWith(ts, '&') {
      BacksTally(Back(c), ts[1..], x);
    }
  }

  lemma {:induction false} LineTally(ts: seq<Tok>, x: Item)
    requires LineOf(ts).Ok?
    ensures Took(ts, LineOf(ts).rest, x, Score(LineOf(ts).cmd, x))
    decreases |ts|, 2
  {
    PipeTally(ts, x);
    var first := PipeOf(ts);
    BacksTally(first.cmd, first.rest, x);
    var left := BacksOf(first.cmd, first.rest);
    if StartsWith(left.rest, ';') {
      LineTally(left.rest[1..], x);
    }
  }

  /** A line that is accepted has all its words, redirections and operators in the command, and balanced parentheses. */
  lemma {:induction false} CommandTally(line: string, x: Item)
    requires Clean(line) && CommandOf(line).Some?
    ensures Items(Lex(line, 0), x) == Score(CommandOf(line).value, x) && Depth(Lex(line, 0)) == 0
  {
    LineTally(Lex(line, 0), x);
  }
}
