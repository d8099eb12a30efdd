// Which rows of tokens stand for which tree, said as a grammar (sh.c: parsecmd and the functions it
// calls), and the parser on tokens proved to decide it.
module ShellDerivation {
  import opened ShellGrammar
  import opened ShellLexer
  import opened ShellRoundTrip

  // t followed by a file name is the redirection r.
  predicate IsRedir(t: Tok, file: Tok, r: Redirection<string>) {
    && file == Word(r.file)
    && ((t == Sym('<') && r.mode == O_RDONLY && r.fd == 0)
        || ((t == Sym('>') || t == Append) && r.mode == O_WRITE && r.fd == 1))
  }

  // ts is the words argv and the redirections rs, each in its order, mixed in any way.
  predicate ItemsOf(ts: seq<Tok>, argv: seq<string>, rs: seq<Redirection<string>>)
    decreases |ts|
  {
    if ts == [] then argv == [] && rs == []
    else if ts[0].Word? then argv != [] && argv[0] == ts[0].w && ItemsOf(ts[1..], argv[1..], rs)
    else |ts| >= 2 && rs != [] && IsRedir(ts[0], ts[1], rs[0]) && ItemsOf(ts[2..], argv, rs[1..])
  }

  // The grammar, every rule for the whole row ts.
  ghost predicate PlainOf(ts: seq<Tok>, c: Cmd<string>) {
    exists argv, rs :: ItemsOf(ts, argv, rs) && |argv| < MAXARGS && c == Wrap(Exec(argv), rs)
  }

  ghost predicate BlockOf(ts: seq<Tok>, c: Cmd<string>)
    decreases |ts|, 0
  {
    exists n, d, rs :: 1 <= n < |ts| && ts[0] == Sym('(') && ts[n] == Sym(')')
                    && LineOf(ts[1..n], d) && ItemsOf(ts[n + 1..], [], rs) && c == Wrap(d, rs)
  }

  ghost predicate PipeOf(ts: seq<Tok>, c: Cmd<string>)
    decreases |ts|, 1
  {
    || PlainOf(ts, c)
    || BlockOf(ts, c)
    || (c.Pipe? && exists n :: 0 <= n < |ts| && ts[n] == Sym('|')
                            && (PlainOf(ts[..n], c.left) || BlockOf(ts[..n], c.left)) && PipeOf(ts[n + 1..], c.right))
  }

  ghost predicate BackOf(ts: seq<Tok>, c: Cmd<string>)
    decreases |ts|, 2
  {
    || PipeOf(ts, c)
    || (c.Back? && ts != [] && ts[|ts| - 1] == Sym('&') && BackOf(ts[..|ts| - 1], c.cmd))
  }

  ghost predicate LineOf(ts: seq<Tok>, c: Cmd<string>)
    decreases |ts|, 3
  {
    || BackOf(ts, c)
    || (c.List? && exists n :: 0 <= n < |ts| && ts[n] == Sym(';') && BackOf(ts[..n], c.left) && LineOf(ts[n + 1..], c.right))
  }

  // ---- making derivations ----

  lemma AddWord(w: string, ts: seq<Tok>, argv: seq<string>, rs: seq<Redirection<string>>)
    requires ItemsOf(ts, argv, rs)
    ensures ItemsOf([Word(w)] + ts, [w] + argv, rs)
  {
    hide IsRedir;
    assert ([Word(w)] + ts)[1..] == ts && ([w] + argv)[1..] == argv;
  }

  lemma AddRedir(t: Tok, r: Redirection<string>, ts: seq<Tok>, argv: seq<string>, rs: seq<Redirection<string>>)
    requires IsRedir(t, Word(r.file), r) && ItemsOf(ts, argv, rs)
    ensures ItemsOf([t, Word(r.file)] + ts, argv, [r] + rs)
  {
    assert ([t, Word(r.file)] + ts)[2..] == ts && ([r] + rs)[1..] == rs;
  }

  // What stands first.
  lemma ItemsHead(ts: seq<Tok>, argv: seq<string>, rs: seq<Redirection<string>>)
    requires ItemsOf(ts, argv, rs)
    ensures ts == [] ==> argv == [] && rs == []
    ensures ts != [] && ts[0].Word? ==> argv != [] && ts == [Word(argv[0])] + ts[1..] && ItemsOf(ts[1..], argv[1..], rs)
    ensures ts != [] && !ts[0].Word? ==>
              |ts| >= 2 && rs != [] && IsRedir(ts[0], Word(rs[0].file), rs[0])
              && ts == [ts[0], Word(rs[0].file)] + ts[2..] && ItemsOf(ts[2..], argv, rs[1..])
  {
  }

  lemma {:induction false} ItemsMore(a: seq<Tok>, argv: seq<string>, rs: seq<Redirection<string>>,
                                     b: seq<Tok>, more: seq<string>, rs': seq<Redirection<string>>)
    requires ItemsOf(a, argv, rs) && ItemsOf(b, more, rs')
    ensures ItemsOf(a + b, argv + more, rs + rs')
    decreases |a|
  {
    hide ItemsOf, IsRedir;
    ItemsHead(a, argv, rs);
    if a == [] {
      assert a + b == b && argv + more == more && rs + rs' == rs';
    } else if a[0].Word? {
      ItemsMore(a[1..], argv[1..], rs, b, more, rs');
      AddWord(argv[0], a[1..] + b, argv[1..] + more, rs + rs');
      assert a + b == [Word(argv[0])] + (a[1..] + b) && argv + more == [argv[0]] + (argv[1..] + more);
    } else {
      ItemsMore(a[2..], argv, rs[1..], b, more, rs');
      AddRedir(a[0], rs[0], a[2..] + b, argv + more, rs[1..] + rs');
      assert a + b == [a[0], Word(rs[0].file)] + (a[2..] + b) && rs + rs' == [rs[0]] + (rs[1..] + rs');
    }
  }

  lemma MakeBlock(inner: seq<Tok>, d: Cmd<string>, after: seq<Tok>, rs: seq<Redirection<string>>)
    requires LineOf(inner, d) && ItemsOf(after, [], rs)
    ensures BlockOf([Sym('(')] + inner + [Sym(')')] + after, Wrap(d, rs))
  {
    hide LineOf, ItemsOf;
    var ts := [Sym('(')] + inner + [Sym(')')] + after;
    var n := 1 + |inner|;
    assert ts[0] == Sym('(') && ts[n] == Sym(')') && ts[1..n] == inner && ts[n + 1..] == after;
  }

  lemma MakePipe(l: seq<Tok>, left: Cmd<string>, r: seq<Tok>, right: Cmd<string>)
    requires (PlainOf(l, left) || BlockOf(l, left)) && PipeOf(r, right)
    ensures PipeOf(l + [Sym('|')] + r, Pipe(left, right))
  {
    hide PlainOf, BlockOf;
    var ts := l + [Sym('|')] + r;
    assert ts[|l|] == Sym('|') && ts[..|l|] == l && ts[|l| + 1..] == r;
  }

  lemma MakeBack(ts: seq<Tok>, c: Cmd<string>)
    requires BackOf(ts, c)
    ensures BackOf(ts + [Sym('&')], Back(c))
  {
    hide PipeOf;
    assert (ts + [Sym('&')])[..|ts|] == ts;
  }

  lemma MakeList(l: seq<Tok>, left: Cmd<string>, r: seq<Tok>, right: Cmd<string>)
    requires BackOf(l, left) && LineOf(r, right)
    ensures LineOf(l + [Sym(';')] + r, List(left, right))
  {
    hide BackOf;
    var ts := l + [Sym(';')] + r;
    assert ts[|l|] == Sym(';') && ts[..|l|] == l && ts[|l| + 1..] == r;
  }

  // ---- what the parser takes has a derivation ----

  lemma {:induction false} RedirsSound(ts: seq<Tok>) returns (used: seq<Tok>)
    requires ParseRedirs(ts).Done?
    ensures ts == used + ParseRedirs(ts).rest && ItemsOf(used, [], ParseRedirs(ts).value)
    decreases |ts|
  {
    used := [];
    if Starts(ts, "<>") {
      var tail := RedirsSound(ts[2..]);
      used := ts[..2] + tail;
      assert used[2..] == tail && ParseRedirs(ts).value[1..] == ParseRedirs(ts[2..]).value;
    }
  }

  lemma ArgsNext(argv: seq<string>, rs: seq<Redirection<string>>, ts: seq<Tok>)
    requires !Starts(ts, "|)&;") && ts != [] && ParseArgs(argv, rs, ts).Done?
    ensures ts[0].Word? && |argv| + 1 < MAXARGS && ParseRedirs(ts[1..]).Done?
    ensures var p := ParseRedirs(ts[1..]); ParseArgs(argv, rs, ts) == ParseArgs(argv + [ts[0].w], rs + p.value, p.rest)
  {
    hide ParseRedirs;
  }

  lemma NoItems()
    ensures ItemsOf([], [], [])
  {
  }

  lemma {:induction false} ArgsSound(argv: seq<string>, rs: seq<Redirection<string>>, ts: seq<Tok>)
    returns (used: seq<Tok>, more: seq<string>, rs': seq<Redirection<string>>)
    requires |argv| < MAXARGS && ParseArgs(argv, rs, ts).Done?
    ensures ts == used + ParseArgs(argv, rs, ts).rest && ItemsOf(used, more, rs') && |argv + more| < MAXARGS
    ensures ParseArgs(argv, rs, ts).value == Wrap(Exec(argv + more), rs + rs')
    decreases |ts|
  {
    hide ParseRedirs, ParseArgs, ItemsOf, Wrap;
    if Starts(ts, "|)&;") || ts == [] {
      used, more, rs' := [], [], [];
      ArgStop(argv, rs, ts);
      NoItems();
      assert argv + more == argv && rs + rs' == rs;
    } else {
      ArgsNext(argv, rs, ts);
      hide Starts;
      var w, p := ts[0].w, ParseRedirs(ts[1..]);
      var u := RedirsSound(ts[1..]);
      var v, m, q := ArgsSound(argv + [w], rs + p.value, p.rest);
      used, more, rs' := [Word(w)] + (u + v), [w] + m, p.value + q;
      ItemsMore(u, [], p.value, v, m, q);
      assert [] + m == m;
      AddWord(w, u + v, m, rs');
      assert argv + more == argv + [w] + m && rs + rs' == rs + p.value + q;
      assert ts == [ts[0]] + ts[1..] && used + ParseArgs(argv, rs, ts).rest == [Word(w)] + (u + (v + ParseArgs(argv, rs, ts).rest));
    }
  }

  lemma PlainSound(ts: seq<Tok>) returns (used: seq<Tok>)
    requires !Starts(ts, "(") && ParseExec(ts).Done?
    ensures ts == used + ParseExec(ts).rest && PlainOf(used, ParseExec(ts).value)
  {
    hide ParseRedirs, ParseArgs, Wrap, Starts, ItemsOf;
    var p := ParseRedirs(ts);
    var u := RedirsSound(ts);
    var v, m, q := ArgsSound([], p.value, p.rest);
    ItemsMore(u, [], p.value, v, m, q);
    used := u + v;
    assert [] + m == m;
  }

  lemma {:induction false} ExecSound(ts: seq<Tok>) returns (used: seq<Tok>)
    requires ParseExec(ts).Done?
    ensures ts == used + ParseExec(ts).rest
    ensures PlainOf(used, ParseExec(ts).value) || BlockOf(used, ParseExec(ts).value)
    decreases |ts|, 1
  {
    hide PlainOf, BlockOf, LineOf, ItemsOf, Wrap;
    if Starts(ts, "(") {
      var p := ParseLine(ts[1..]);
      var inner := LineSound(ts[1..]);
      var after := RedirsSound(p.rest[1..]);
      hide ParseLine, ParseRedirs;
      used := [Sym('(')] + inner + [Sym(')')] + after;
      MakeBlock(inner, p.value, after, ParseRedirs(p.rest[1..]).value);
      assert ts[0] == Sym('(') && p.rest[0] == Sym(')');
      assert ts == [ts[0]] + (inner + ([p.rest[0]] + (after + ParseExec(ts).rest)));
    } else {
      used := PlainSound(ts);
    }
  }

  lemma {:induction false} PipeSound(ts: seq<Tok>) returns (used: seq<Tok>)
    requires ParsePipe(ts).Done?
    ensures ts == used + ParsePipe(ts).rest && PipeOf(used, ParsePipe(ts).value)
    decreases |ts|, 2
  {
    hide PlainOf, BlockOf, ParseExec;
    used := ExecSound(ts);
    var p := ParseExec(ts);
    if Starts(p.rest, "|") {
      var tail := PipeSound(p.rest[1..]);
      MakePipe(used, p.value, tail, ParsePipe(p.rest[1..]).value);
      used := used + [Sym('|')] + tail;
      assert p.rest == [Sym('|')] + p.rest[1..];
    }
  }

  lemma {:induction false} BacksSound(ts: seq<Tok>, c: Cmd<string>, rest: seq<Tok>) returns (used: seq<Tok>)
    requires BackOf(ts, c)
    ensures var (d, end) := ParseBacks(c, rest); ts + rest == used + end && BackOf(used, d)
    decreases |rest|
  {
    used := ts;
    if Starts(rest, "&") {
      hide BackOf;
      MakeBack(ts, c);
      assert rest[0] == Sym('&');
      assert ts + rest == ts + [Sym('&')] + rest[1..];
      used := BacksSound(ts + [Sym('&')], Back(c), rest[1..]);
    }
  }

  lemma {:induction false} LineSound(ts: seq<Tok>) returns (used: seq<Tok>)
    requires ParseLine(ts).Done?
    ensures ts == used + ParseLine(ts).rest && LineOf(used, ParseLine(ts).value)
    decreases |ts|, 3
  {
    hide ParsePipe, ParseBacks, BackOf;
    var p := ParsePipe(ts);
    used := PipeSound(ts);
    PipeIsBack(used, p.value);
    used := BacksSound(used, p.value, p.rest);
    var (d, end) := ParseBacks(p.value, p.rest);
    if Starts(end, ";") {
      var tail := LineSound(end[1..]);
      MakeList(used, d, tail, ParseLine(end[1..]).value);
      used := used + [Sym(';')] + tail;
      assert end == [Sym(';')] + end[1..];
    }
  }

  lemma PipeIsBack(ts: seq<Tok>, c: Cmd<string>)
    requires PipeOf(ts, c)
    ensures BackOf(ts, c)
  {
    hide PipeOf;
  }

  // ---- whatever has a derivation the parser takes ----

  // The redirections before the first word are taken at once.
  lemma {:induction false} LeadTaken(ts: seq<Tok>, argv: seq<string>, rs: seq<Redirection<string>>, rest: seq<Tok>) returns (n: nat)
    requires ItemsOf(ts, argv, rs) && !Starts(rest, "<>")
    ensures n <= |rs| && 2 * n <= |ts| && ParseRedirs(ts + rest) == Done(rs[..n], ts[2 * n..] + rest)
    ensures ItemsOf(ts[2 * n..], argv, rs[n..]) && (2 * n < |ts| ==> ts[2 * n].Word?)
    decreases |ts|
  {
    hide ParseRedirs, ItemsOf, IsRedir;
    n := 0;
    ItemsHead(ts, argv, rs);
    if ts == [] {
      assert ts + rest == rest;
      NoRedirs(rest);
    } else if ts[0].Word? {
      NoRedirs(ts + rest);
    } else {
      var m := LeadTaken(ts[2..], argv, rs[1..], rest);
      n := m + 1;
      RedirTaken(ts[0], rs[0], ts[2..] + rest);
      assert ts + rest == [ts[0], Word(rs[0].file)] + (ts[2..] + rest);
      assert ts[2..][2 * m..] == ts[2 * n..] && rs[1..][m..] == rs[n..] && rs[..n] == [rs[0]] + rs[1..][..m];
    }
  }

  lemma RedirTaken(t: Tok, r: Redirection<string>, ts: seq<Tok>)
    requires IsRedir(t, Word(r.file), r) && ParseRedirs(ts).Done?
    ensures ParseRedirs([t, Word(r.file)] + ts) == Done([r] + ParseRedirs(ts).value, ParseRedirs(ts).rest)
  {
    assert ([t, Word(r.file)] + ts)[2..] == ts;
  }

  lemma {:induction false} ArgsTaken(done: seq<string>, rs0: seq<Redirection<string>>, ts: seq<Tok>,
                                     argv: seq<string>, rs: seq<Redirection<string>>, rest: seq<Tok>)
    requires ItemsOf(ts, argv, rs) && (ts != [] ==> ts[0].Word?) && |done| + |argv| < MAXARGS && AfterExec(rest)
    ensures ParseArgs(done, rs0, ts + rest) == Done(Wrap(Exec(done + argv), rs0 + rs), rest)
    decreases |ts|
  {
    hide ParseRedirs, ParseArgs, Wrap, IsRedir;
    if ts == [] {
      assert ts + rest == rest && done + argv == done && rs0 + rs == rs0;
      ArgStop(done, rs0, rest);
    } else {
      assert ItemsOf(ts[1..], argv[1..], rs) && ts + rest == [Word(argv[0])] + (ts[1..] + rest);
      hide ItemsOf;
      var n := LeadTaken(ts[1..], argv[1..], rs, rest);
      var tail := ts[1..][2 * n..];
      ArgsTaken(done + [argv[0]], rs0 + rs[..n], tail, argv[1..], rs[n..], rest);
      ArgStep(done, rs0, argv[0], ts[1..] + rest, rs[..n], tail + rest);
      assert done + [argv[0]] + argv[1..] == done + argv && rs0 + rs[..n] + rs[n..] == rs0 + rs;
    }
  }

  lemma PlainTaken(ts: seq<Tok>, c: Cmd<string>, rest: seq<Tok>)
    requires PlainOf(ts, c) && AfterExec(rest)
    ensures ParseExec(ts + rest) == Done(c, rest)
  {
    hide ParseRedirs, ParseArgs, ParseExec, Wrap, ItemsOf;
    var argv, rs :| ItemsOf(ts, argv, rs) && |argv| < MAXARGS && c == Wrap(Exec(argv), rs);
    NoOpen(ts, argv, rs, rest);
    var n := LeadTaken(ts, argv, rs, rest);
    PlainStep(ts + rest, rs[..n], ts[2 * n..] + rest);
    ArgsTaken([], rs[..n], ts[2 * n..], argv, rs[n..], rest);
    assert [] + argv == argv && rs[..n] + rs[n..] == rs;
  }

  lemma NoOpen(ts: seq<Tok>, argv: seq<string>, rs: seq<Redirection<string>>, rest: seq<Tok>)
    requires ItemsOf(ts, argv, rs) && AfterExec(rest)
    ensures !Starts(ts + rest, "(")
  {
    if ts == [] { assert ts + rest == rest; }
  }

  lemma {:induction false} BlockTaken(ts: seq<Tok>, c: Cmd<string>, rest: seq<Tok>)
    requires BlockOf(ts, c) && AfterExec(rest)
    ensures ParseExec(ts + rest) == Done(c, rest)
    decreases |ts|, 0
  {
    hide LineOf, ParseLine, ParseRedirs, ParseExec, Wrap, ItemsOf;
    var n, d, rs :| 1 <= n < |ts| && ts[0] == Sym('(') && ts[n] == Sym(')')
                    && LineOf(ts[1..n], d) && ItemsOf(ts[n + 1..], [], rs) && c == Wrap(d, rs);
    var tail := ts[n + 1..] + rest;
    RedirsTaken(ts[n + 1..], rs, rest);
    LineTaken(ts[1..n], d, [Sym(')')] + tail);
    BlockStep(ts[1..n] + ([Sym(')')] + tail), d, tail, rs, rest);
    assert ts + rest == [ts[0]] + (ts[1..n] + ([ts[n]] + tail));
  }

  lemma RedirsTaken(ts: seq<Tok>, rs: seq<Redirection<string>>, rest: seq<Tok>)
    requires ItemsOf(ts, [], rs) && AfterExec(rest)
    ensures ParseRedirs(ts + rest) == Done(rs, rest)
  {
    hide ParseRedirs, IsRedir;
    var n := LeadTaken(ts, [], rs, rest);
    assert ts[2 * n..] == [] && rs[n..] == [];
    assert ts[2 * n..] + rest == rest && rs[..n] == rs;
  }

  lemma {:induction false} PipeTaken(ts: seq<Tok>, c: Cmd<string>, rest: seq<Tok>)
    requires PipeOf(ts, c) && AfterPipe(rest)
    ensures ParsePipe(ts + rest) == Done(c, rest)
    decreases |ts|, 1
  {
    hide PlainOf, BlockOf, ParseExec;
    if PlainOf(ts, c) {
      PlainTaken(ts, c, rest);
    } else if BlockOf(ts, c) {
      BlockTaken(ts, c, rest);
    } else {
      var n :| 0 <= n < |ts| && ts[n] == Sym('|') && (PlainOf(ts[..n], c.left) || BlockOf(ts[..n], c.left)) && PipeOf(ts[n + 1..], c.right);
      var tail := [Sym('|')] + (ts[n + 1..] + rest);
      assert ts + rest == ts[..n] + tail && tail[1..] == ts[n + 1..] + rest;
      if PlainOf(ts[..n], c.left) { PlainTaken(ts[..n], c.left, tail); } else { BlockTaken(ts[..n], c.left, tail); }
      PipeTaken(ts[n + 1..], c.right, rest);
    }
  }

  // A pipeline followed by & signs: what parseline has before it looks for the semicolon.
  ghost predicate BacksTaken(ts: seq<Tok>, c: Cmd<string>, rest: seq<Tok>) {
    var p := ParsePipe(ts);
    p.Done? && ParseBacks(p.value, p.rest) == ParseBacks(c, rest)
  }

  lemma {:induction false} BackTaken(ts: seq<Tok>, c: Cmd<string>, rest: seq<Tok>)
    requires BackOf(ts, c) && AfterPipe(rest)
    ensures BacksTaken(ts + rest, c, rest)
    decreases |ts|, 2
  {
    hide PipeOf, ParsePipe;
    if PipeOf(ts, c) {
      PipeTaken(ts, c, rest);
    } else {
      var n := |ts| - 1;
      BackTaken(ts[..n], c.cmd, [Sym('&')] + rest);
      assert ts + rest == ts[..n] + ([Sym('&')] + rest) && ([Sym('&')] + rest)[1..] == rest;
    }
  }

  lemma {:induction false} LineTaken(ts: seq<Tok>, c: Cmd<string>, rest: seq<Tok>)
    requires LineOf(ts, c) && AfterLine(rest)
    ensures ParseLine(ts + rest) == Done(c, rest)
    decreases |ts|, 3
  {
    hide BackOf, ParsePipe;
    if BackOf(ts, c) {
      BackTaken(ts, c, rest);
    } else {
      var n :| 0 <= n < |ts| && ts[n] == Sym(';') && BackOf(ts[..n], c.left) && LineOf(ts[n + 1..], c.right);
      var tail := [Sym(';')] + (ts[n + 1..] + rest);
      assert ts + rest == ts[..n] + tail && tail[1..] == ts[n + 1..] + rest;
      BackTaken(ts[..n], c.left, tail);
      LineTaken(ts[n + 1..], c.right, rest);
    }
  }

  // ---- the parser decides the grammar ----

  // A row of tokens is accepted with the tree c exactly if the whole row stands for c.
  lemma AcceptedIff(ts: seq<Tok>, c: Cmd<string>)
    ensures LineOf(ts, c) <==> ParseCmd(ts).Done? && ParseCmd(ts).value == c
  {
    hide ParseLine, LineOf;
    if ParseCmd(ts).Done? {
      var used := LineSound(ts);
      assert used + [] == used;
    }
    if LineOf(ts, c) {
      LineTaken(ts, c, []);
      assert ts + [] == ts;
    }
  }

  // No row of tokens stands for two trees.
  lemma OneTree(ts: seq<Tok>, c: Cmd<string>, d: Cmd<string>)
    requires LineOf(ts, c) && LineOf(ts, d)
    ensures c == d
  {
    AcceptedIff(ts, c);
    AcceptedIff(ts, d);
  }

  // The text is a command line that means c: it spells a row of tokens that stands for c.
  ghost predicate StandsFor(text: string, c: Cmd<string>) {
    exists ts :: Spells(text, ts) && LineOf(ts, c)
  }

  lemma StandsIff(text: string, c: Cmd<string>)
    ensures StandsFor(text, c) <==> ParseCmd(Toks(text)).Done? && ParseCmd(Toks(text)).value == c
  {
    hide Spells, LineOf, ParseCmd, Toks;
    ToksIff(text, Toks(text));
    AcceptedIff(Toks(text), c);
    if StandsFor(text, c) {
      var ts :| Spells(text, ts) && LineOf(ts, c);
      ToksIff(text, ts);
    }
  }
}
