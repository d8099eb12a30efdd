// No command tree tells >> from > (sh.c: parseredirs gives both the same mode).
module ShellAppend {
  import opened ShellGrammar
  import opened ShellLexer

  // Every >> written as >.
  function Over(ts: seq<Tok>): (r: seq<Tok>)
    ensures |r| == |ts|
    ensures forall k :: 0 <= k < |ts| ==> r[k] == if ts[k].Append? then Sym('>') else ts[k]
  {
    if ts == [] then [] else [if ts[0].Append? then Sym('>') else ts[0]] + Over(ts[1..])
  }

  lemma OverRest(ts: seq<Tok>, k: nat)
    requires k <= |ts|
    ensures Over(ts)[k..] == Over(ts[k..])
  {
  }

  lemma OverStarts(ts: seq<Tok>, chars: string)
    ensures Starts(Over(ts), chars) == Starts(ts, chars)
  {
  }

  // The same outcome, with the rest of the tokens rewritten.
  function OverOut<T>(p: Parsed<T>): Parsed<T> {
    match p
    case Fail(why) => Fail(why)
    case Done(x, rest) => Done(x, Over(rest))
  }

  lemma {:induction false} OverRedirs(ts: seq<Tok>)
    ensures ParseRedirs(Over(ts)) == OverOut(ParseRedirs(ts))
    decreases |ts|
  {
    OverStarts(ts, "<>");
    if Starts(ts, "<>") && |ts| >= 2 && ts[1].Word? {
      OverRest(ts, 2);
      OverRedirs(ts[2..]);
    }
  }

  lemma {:induction false} OverArgs(argv: seq<string>, rs: seq<Redirection<string>>, ts: seq<Tok>)
    ensures ParseArgs(argv, rs, Over(ts)) == OverOut(ParseArgs(argv, rs, ts))
    decreases |ts|
  {
    OverStarts(ts, "|)&;");
    if !Starts(ts, "|)&;") && ts != [] && ts[0].Word? && |argv| + 1 < MAXARGS {
      OverRest(ts, 1);
      OverRedirs(ts[1..]);
      var p := ParseRedirs(ts[1..]);
      if p.Done? {
        OverArgs(argv + [ts[0].w], rs + p.value, p.rest);
      }
    }
  }

  lemma {:induction false} OverExec(ts: seq<Tok>)
    ensures ParseExec(Over(ts)) == OverOut(ParseExec(ts))
    decreases |ts|, 1
  {
    OverStarts(ts, "(");
    if Starts(ts, "(") {
      OverBlock(ts);
    } else {
      OverRedirs(ts);
      var p := ParseRedirs(ts);
      if p.Done? {
        OverArgs([], p.value, p.rest);
      }
    }
  }

  lemma {:induction false} OverBlock(ts: seq<Tok>)
    requires Starts(ts, "(")
    ensures Starts(Over(ts), "(") && ParseBlock(Over(ts)) == OverOut(ParseBlock(ts))
    decreases |ts|, 0
  {
    OverRest(ts, 1);
    OverLine(ts[1..]);
    var p := ParseLine(ts[1..]);
    if p.Done? {
      OverStarts(p.rest, ")");
      if Starts(p.rest, ")") {
        OverRest(p.rest, 1);
        OverRedirs(p.rest[1..]);
      }
    }
  }

  lemma {:induction false} OverPipe(ts: seq<Tok>)
    ensures ParsePipe(Over(ts)) == OverOut(ParsePipe(ts))
    decreases |ts|, 2
  {
    OverExec(ts);
    var p := ParseExec(ts);
    if p.Done? {
      OverStarts(p.rest, "|");
      if Starts(p.rest, "|") {
        OverRest(p.rest, 1);
        OverPipe(p.rest[1..]);
      }
    }
  }

  lemma {:induction false} OverBacks(cmd: Cmd<string>, ts: seq<Tok>)
    ensures ParseBacks(cmd, Over(ts)) == (ParseBacks(cmd, ts).0, Over(ParseBacks(cmd, ts).1))
    decreases |ts|
  {
    OverStarts(ts, "&");
    if Starts(ts, "&") {
      OverRest(ts, 1);
      OverBacks(Back(cmd), ts[1..]);
    }
  }

  lemma {:induction false} OverLine(ts: seq<Tok>)
    ensures ParseLine(Over(ts)) == OverOut(ParseLine(ts))
    decreases |ts|, 3
  {
    OverPipe(ts);
    var p := ParsePipe(ts);
    if p.Done? {
      OverBacks(p.value, p.rest);
      var rest := ParseBacks(p.value, p.rest).1;
      OverStarts(rest, ";");
      if Starts(rest, ";") {
        OverRest(rest, 1);
        OverLine(rest[1..]);
      }
    }
  }

  lemma OneAppend(ts: seq<Tok>)
    ensures ParseRedirs([Append] + ts) == ParseRedirs([Sym('>')] + ts)
  {
    var a, b := [Append] + ts, [Sym('>')] + ts;
    if ts != [] {
      assert a[2..] == b[2..] && a[1] == b[1] == ts[0];
    }
  }

  // On every row of tokens, >> and > give the same tree or the same failure.
  lemma AppendIsOverwrite(ts: seq<Tok>)
    ensures ParseCmd(Over(ts)) == ParseCmd(ts)
  {
    OverLine(ts);
  }

  // So two texts whose tokens differ only in >> for > run the same command.
  lemma TextsAlike(s: string, t: string)
    requires Over(Toks(s)) == Over(Toks(t))
    ensures ParseCmd(Toks(s)) == ParseCmd(Toks(t))
  {
    AppendIsOverwrite(Toks(s));
    AppendIsOverwrite(Toks(t));
  }
}
