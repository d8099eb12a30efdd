// Parsing the canonical printing of a command tree gives the tree back.
module ShellRoundTrip {
  import opened ShellGrammar

  // What may follow an element of a pipeline, a pipeline, and a line.
  predicate AfterExec(rest: seq<Tok>) { rest == [] || Starts(rest, "|)&;") }

  predicate AfterPipe(rest: seq<Tok>) { rest == [] || Starts(rest, ")&;") }

  predicate AfterLine(rest: seq<Tok>) { rest == [] || Starts(rest, ")") }

  // ---- redirections ----

  function RedirToks(rs: seq<Redirection<string>>): seq<Tok> {
    if rs == [] then [] else [Arrow(rs[0].mode), Word(rs[0].file)] + RedirToks(rs[1..])
  }

  predicate RedirsOk(rs: seq<Redirection<string>>) {
    forall k :: 0 <= k < |rs| ==> (rs[k].mode == O_RDONLY && rs[k].fd == 0) || (rs[k].mode == O_WRITE && rs[k].fd == 1)
  }

  lemma {:induction false} RedirToksAppend(rs: seq<Redirection<string>>, r: Redirection<string>)
    ensures RedirToks(rs + [r]) == RedirToks(rs) + [Arrow(r.mode), Word(r.file)]
  {
    if rs == [] {
      assert rs + [r] == [r] && [r][1..] == [];
    } else {
      assert (rs + [r])[1..] == rs[1..] + [r];
      RedirToksAppend(rs[1..], r);
    }
  }

  lemma {:induction false} ParseRedirToks(rs: seq<Redirection<string>>, rest: seq<Tok>)
    requires RedirsOk(rs) && !Starts(rest, "<>")
    ensures ParseRedirs(RedirToks(rs) + rest) == Done(rs, rest)
  {
    if rs == [] {
      assert RedirToks(rs) + rest == rest;
    } else {
      var ts := RedirToks(rs) + rest;
      assert ts == [Arrow(rs[0].mode), Word(rs[0].file)] + (RedirToks(rs[1..]) + rest);
      assert ts[2..] == RedirToks(rs[1..]) + rest;
      ParseRedirToks(rs[1..], rest);
      assert [rs[0]] + rs[1..] == rs;
    }
  }

  // ---- a tree as redirections around a base ----

  function Base(c: Cmd<string>): Cmd<string> { if c.Redir? then Base(c.cmd) else c }

  function Around(c: Cmd<string>): seq<Redirection<string>> {
    if c.Redir? then Around(c.cmd) + [Redirection(c.file, c.mode, c.fd)] else []
  }

  lemma {:induction false} AroundBase(c: Cmd<string>)
    requires Writable(c)
    ensures !Base(c).Redir? && Writable(Base(c)) && RedirsOk(Around(c))
    ensures Wrap(Base(c), Around(c)) == c
    ensures PrintExec(c) == PrintExec(Base(c)) + RedirToks(Around(c))
  {
    if c.Redir? {
      var r := Redirection(c.file, c.mode, c.fd);
      AroundBase(c.cmd);
      RedirToksAppend(Around(c.cmd), r);
      assert Around(c)[..|Around(c)| - 1] == Around(c.cmd);
      assert PrintExec(c) == PrintExec(Base(c)) + (RedirToks(Around(c.cmd)) + [Arrow(c.mode), Word(c.file)]);
    } else {
      assert PrintExec(c) == PrintExec(c) + [];
    }
  }

  // ---- single steps of the parser ----

  lemma NoRedirs(ts: seq<Tok>)
    requires !Starts(ts, "<>")
    ensures ParseRedirs(ts) == Done([], ts)
  {
  }

  lemma ArgStep(done: seq<string>, rs: seq<Redirection<string>>, w: string, tail: seq<Tok>,
                more: seq<Redirection<string>>, rest: seq<Tok>)
    requires |done| + 1 < MAXARGS && ParseRedirs(tail) == Done(more, rest)
    ensures ParseArgs(done, rs, [Word(w)] + tail) == ParseArgs(done + [w], rs + more, rest)
  {
    hide ParseRedirs;
    assert ([Word(w)] + tail)[1..] == tail;
  }

  lemma ArgStop(done: seq<string>, rs: seq<Redirection<string>>, rest: seq<Tok>)
    requires AfterExec(rest)
    ensures ParseArgs(done, rs, rest) == Done(Wrap(Exec(done), rs), rest)
  {
  }

  lemma PlainStep(ts: seq<Tok>, rs: seq<Redirection<string>>, rest: seq<Tok>)
    requires !Starts(ts, "(") && ParseRedirs(ts) == Done(rs, rest)
    ensures ParseExec(ts) == ParseArgs([], rs, rest)
  {
  }

  lemma BlockStep(inner: seq<Tok>, b: Cmd<string>, tail: seq<Tok>, rs: seq<Redirection<string>>, rest: seq<Tok>)
    requires ParseLine(inner) == Done(b, [Sym(')')] + tail) && ParseRedirs(tail) == Done(rs, rest)
    ensures ParseExec([Sym('(')] + inner) == Done(Wrap(b, rs), rest)
  {
    hide ParseLine, ParseRedirs;
    assert ([Sym('(')] + inner)[1..] == inner && ([Sym(')')] + tail)[1..] == tail;
  }

  // ---- arguments ----

  lemma {:induction false} ParseWords(done: seq<string>, argv: seq<string>, after: seq<Tok>, rs: seq<Redirection<string>>, rest: seq<Tok>)
    requires argv != [] && |done| + |argv| < MAXARGS && ParseRedirs(after) == Done(rs, rest) && AfterExec(rest)
    ensures ParseArgs(done, [], Words(argv) + after) == Done(Wrap(Exec(done + argv), rs), rest)
    decreases |argv|
  {
    hide ParseArgs, ParseRedirs, AfterExec, Wrap;
    var tail := Words(argv[1..]) + after;
    assert Words(argv) + after == [Word(argv[0])] + tail;
    var none: seq<Redirection<string>> := [];
    if |argv| == 1 {
      assert tail == after;
      ArgStep(done, none, argv[0], tail, rs, rest);
      assert none + rs == rs && done + [argv[0]] == done + argv;
      ArgStop(done + [argv[0]], rs, rest);
    } else {
      assert tail[0] == Word(argv[1..][0]);
      NoRedirs(tail);
      assert none + none == none && done + [argv[0]] + argv[1..] == done + argv;
      ArgStep(done, none, argv[0], tail, none, tail);
      ParseWords(done + [argv[0]], argv[1..], after, rs, rest);
    }
  }

  // Arguments or redirections never begin with a parenthesis.
  lemma NoBlock(argv: seq<string>, rs: seq<Redirection<string>>, rest: seq<Tok>)
    requires AfterExec(rest)
    ensures !Starts(Words(argv) + (RedirToks(rs) + rest), "(")
    ensures argv != [] ==> !Starts(Words(argv) + (RedirToks(rs) + rest), "<>")
  {
    var ts := Words(argv) + (RedirToks(rs) + rest);
    if argv != [] {
      assert ts[0] == Word(argv[0]);
    } else if rs != [] {
      assert ts[0] == Arrow(rs[0].mode);
    } else {
      assert ts == rest;
    }
  }

  lemma ExecPlain(argv: seq<string>, rs: seq<Redirection<string>>, rest: seq<Tok>)
    requires |argv| < MAXARGS && RedirsOk(rs) && AfterExec(rest)
    ensures ParseExec(Words(argv) + (RedirToks(rs) + rest)) == Done(Wrap(Exec(argv), rs), rest)
  {
    var after := RedirToks(rs) + rest;
    NoBlock(argv, rs, rest);
    ParseRedirToks(rs, rest);
    hide ParseArgs, ParseRedirs, ParseExec, RedirToks, AfterExec, Wrap, Starts;
    if argv == [] {
      assert Words(argv) + after == after;
      PlainStep(after, rs, rest);
      ArgStop([], rs, rest);
    } else {
      NoRedirs(Words(argv) + after);
      PlainStep(Words(argv) + after, [], Words(argv) + after);
      ParseWords([], argv, after, rs, rest);
      assert [] + argv == argv;
    }
  }

  // ---- the induction ----

  // The four printing levels, in the order in which they come to rest on a tree.
  function Rank(c: Cmd<string>, level: nat): nat {
    var start := match c case Exec(_) => 0 case Redir(_, _, _, _) => 0 case Pipe(_, _) => 1 case Back(_) => 2 case List(_, _) => 3;
    (level + 4 - start) % 4
  }

  lemma {:induction false} ExecBack(c: Cmd<string>, rest: seq<Tok>)
    requires Writable(c) && AfterExec(rest)
    ensures ParseExec(PrintExec(c) + rest) == Done(c, rest)
    decreases c, Rank(c, 0)
  {
    AroundBase(c);
    var b, rs := Base(c), Around(c);
    assert b.Exec? ==> PrintExec(b) == Words(b.argv) && |b.argv| < MAXARGS;
    if c.Redir? { BaseSmaller(c); }
    hide ParseLine, ParseExec, ParseRedirs, RedirToks, Around, Base, PrintLine, PrintExec, Writable, Wrap, Words;
    if b.Exec? {
      ExecPlain(b.argv, rs, rest);
      Assoc(Words(b.argv), RedirToks(rs), rest);
    } else {
      var tail := RedirToks(rs) + rest;
      LineBack(b, [Sym(')')] + tail);
      BlockShape(b);
      Regroup(PrintLine(b), RedirToks(rs), rest);
      ParseRedirToks(rs, rest);
      BlockStep(PrintLine(b) + ([Sym(')')] + tail), b, tail, rs, rest);
    }
  }

  lemma Assoc(x: seq<Tok>, y: seq<Tok>, z: seq<Tok>)
    ensures x + y + z == x + (y + z)
  {
  }

  lemma Regroup(line: seq<Tok>, redirs: seq<Tok>, rest: seq<Tok>)
    ensures [Sym('(')] + line + [Sym(')')] + redirs + rest == [Sym('(')] + (line + ([Sym(')')] + (redirs + rest)))
  {
  }

  lemma {:induction false} BaseSmaller(c: Cmd<string>)
    requires c.Redir?
    ensures Base(c) < c
  {
    if c.cmd.Redir? { BaseSmaller(c.cmd); }
  }

  lemma BlockShape(b: Cmd<string>)
    requires b.Pipe? || b.List? || b.Back?
    ensures PrintExec(b) == [Sym('(')] + PrintLine(b) + [Sym(')')]
  {
  }

  lemma {:induction false} PipeBack(c: Cmd<string>, rest: seq<Tok>)
    requires Writable(c) && AfterPipe(rest)
    ensures ParsePipe(PrintPipe(c) + rest) == Done(c, rest)
    decreases c, Rank(c, 1)
  {
    if c.Pipe? {
      var tail := [Sym('|')] + (PrintPipe(c.right) + rest);
      assert PrintPipe(c) + rest == PrintExec(c.left) + tail;
      ExecBack(c.left, tail);
      assert tail[1..] == PrintPipe(c.right) + rest;
      PipeBack(c.right, rest);
    } else {
      ExecBack(c, rest);
    }
  }

  // ---- trailing & signs ----

  function Core(c: Cmd<string>): Cmd<string> { if c.Back? then Core(c.cmd) else c }

  function Amps(c: Cmd<string>): seq<Tok> { if c.Back? then Amps(c.cmd) + [Sym('&')] else [] }

  lemma {:induction false} CoreSplit(c: Cmd<string>)
    requires Writable(c)
    ensures !Core(c).Back? && Writable(Core(c)) && PrintBack(c) == PrintPipe(Core(c)) + Amps(c)
    ensures c.Back? ==> Core(c) < c
  {
    if c.Back? {
      CoreSplit(c.cmd);
    } else {
      assert PrintBack(c) == PrintPipe(c) + [];
    }
  }

  lemma {:induction false} ParseAmps(c: Cmd<string>, rest: seq<Tok>)
    ensures ParseBacks(Core(c), Amps(c) + rest) == ParseBacks(c, rest)
  {
    if c.Back? {
      assert Amps(c) + rest == Amps(c.cmd) + ([Sym('&')] + rest);
      ParseAmps(c.cmd, [Sym('&')] + rest);
      assert ([Sym('&')] + rest)[1..] == rest;
    } else {
      assert Amps(c) + rest == rest;
    }
  }

  lemma {:induction false} BackBack(c: Cmd<string>, rest: seq<Tok>)
    requires Writable(c) && AfterPipe(rest)
    ensures ParsePipe(PrintBack(c) + rest) == Done(Core(c), Amps(c) + rest)
    decreases c, Rank(c, 2)
  {
    CoreSplit(c);
    assert PrintBack(c) + rest == PrintPipe(Core(c)) + (Amps(c) + rest);
    AmpsStart(c);
    PipeBack(Core(c), Amps(c) + rest);
  }

  lemma {:induction false} AmpsStart(c: Cmd<string>)
    ensures Amps(c) == [] || Amps(c)[0] == Sym('&')
  {
    if c.Back? { AmpsStart(c.cmd); }
  }

  lemma {:induction false} LineBack(c: Cmd<string>, rest: seq<Tok>)
    requires Writable(c) && AfterLine(rest)
    ensures ParseLine(PrintLine(c) + rest) == Done(c, rest)
    decreases c, Rank(c, 3)
  {
    if c.List? {
      var tail := [Sym(';')] + (PrintLine(c.right) + rest);
      hide ParsePipe, ParseBacks, PrintBack, Amps, Core;
      assert PrintLine(c) + rest == PrintBack(c.left) + tail;
      BackBack(c.left, tail);
      ParseAmps(c.left, tail);
      assert tail[1..] == PrintLine(c.right) + rest;
      LineBack(c.right, rest);
    } else {
      BackBack(c, rest);
      ParseAmps(c, rest);
    }
  }

  // The round trip on tokens.
  lemma ParsePrinted(c: Cmd<string>)
    requires Writable(c)
    ensures ParseCmd(PrintLine(c)) == Done(c, [])
  {
    assert PrintLine(c) + [] == PrintLine(c);
    LineBack(c, []);
  }
}
