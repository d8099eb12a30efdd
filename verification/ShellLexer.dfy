// From characters to tokens (sh.c: gettoken), and the round trip from a tree to characters and back.
module ShellLexer {
  import opened ShellGrammar
  import opened ShellRoundTrip

  function Blanks(s: string): (n: nat)
    ensures n <= |s| && (forall k :: 0 <= k < n ==> Blank(s[k])) && (n < |s| ==> !Blank(s[n]))
  {
    if s == "" || !Blank(s[0]) then 0 else 1 + Blanks(s[1..])
  }

  // Characters up to the next blank or symbol.
  function WordLen(s: string): (n: nat)
    ensures n <= |s| && (forall k :: 0 <= k < n ==> !Blank(s[k]) && !Symbol(s[k]))
    ensures n < |s| ==> Blank(s[n]) || Symbol(s[n])
  {
    if s == "" || Blank(s[0]) || Symbol(s[0]) then 0 else 1 + WordLen(s[1..])
  }

  lemma {:induction false} WordLenAt(t: string, n: nat)
    requires n <= |t| && (forall k :: 0 <= k < n ==> !Blank(t[k]) && !Symbol(t[k]))
    requires n < |t| ==> Blank(t[n]) || Symbol(t[n])
    ensures WordLen(t) == n
  {
    if n > 0 { WordLenAt(t[1..], n - 1); }
  }

  // The token that starts right here, and how many characters it takes.
  function First(s: string): (t: (Tok, nat))
    requires s != "" && !Blank(s[0])
    ensures 1 <= t.1 <= |s|
  {
    if s[0] == '>' then (if |s| > 1 && s[1] == '>' then (Append, 2) else (Sym('>'), 1))
    else if Symbol(s[0]) then (Sym(s[0]), 1)
    else (Word(s[..WordLen(s)]), WordLen(s))
  }

  function Toks(s: string): (ts: seq<Tok>)
    decreases |s|
  {
    var t := s[Blanks(s)..];
    if t == "" then [] else [First(t).0] + Toks(t[First(t).1..])
  }

  lemma ToksSkip(s: string)
    requires s != "" && Blank(s[0])
    ensures Toks(s) == Toks(s[1..])
  {
    assert s[Blanks(s)..] == s[1..][Blanks(s[1..])..];
  }

  lemma ToksFirst(s: string)
    requires s != "" && !Blank(s[0])
    ensures Toks(s) == [First(s).0] + Toks(s[First(s).1..])
  {
    assert s[0..] == s;
  }

  // ---- which rows of tokens a text spells ----

  // The token t fills s from b to e and goes no further.
  predicate Spelled(s: string, b: nat, e: nat, t: Tok)
    requires b < e <= |s|
  {
    match t
    case Sym(c) => Symbol(c) && s[b..e] == [c] && (c == '>' && e < |s| ==> s[e] != '>')
    case Append => s[b..e] == ">>"
    case Word(w) =>
      && w == s[b..e] && (forall k :: b <= k < e ==> !Blank(s[k]) && !Symbol(s[k]))
      && (e < |s| ==> Blank(s[e]) || Symbol(s[e]))
  }

  // t is the first token of s: blanks up to b, and then t up to e.
  predicate Leads(s: string, b: nat, e: nat, t: Tok) {
    b < e <= |s| && (forall k :: 0 <= k < b ==> Blank(s[k])) && Spelled(s, b, e, t)
  }

  // s is the tokens ts, one after the other, with blanks before, between and behind them.
  ghost predicate Spells(s: string, ts: seq<Tok>)
    decreases |ts|
  {
    if ts == [] then forall k :: 0 <= k < |s| ==> Blank(s[k])
    else exists b: nat, e: nat :: Leads(s, b, e, ts[0]) && e <= |s| && Spells(s[e..], ts[1..])
  }

  lemma FirstSpelled(s: string, b: nat)
    requires b < |s| && !Blank(s[b])
    ensures Spelled(s, b, b + First(s[b..]).1, First(s[b..]).0)
  {
    var t := s[b..];
    var n := First(t).1;
    assert t[..n] == s[b..b + n];
    if s[b] == '>' {
    } else if Symbol(s[b]) {
    } else {
      forall k | b <= k < b + n ensures !Blank(s[k]) && !Symbol(s[k]) { assert t[k - b] == s[k]; }
    }
  }

  lemma SpelledFirst(s: string, b: nat, e: nat, t: Tok)
    requires b < e <= |s| && Spelled(s, b, e, t)
    ensures !Blank(s[b]) && First(s[b..]) == (t, e - b)
  {
    var r := s[b..];
    assert r[..e - b] == s[b..e] && s[b..e][0] == s[b] == r[0];
    match t
    case Sym(c) =>
    case Append => assert s[b..e][1] == r[1];
    case Word(w) =>
      assert e < |s| ==> r[e - b] == s[e];
      WordLenAt(r, e - b);
  }

  lemma BlanksIs(s: string, b: nat)
    requires b < |s| && (forall k :: 0 <= k < b ==> Blank(s[k])) && !Blank(s[b])
    ensures Blanks(s) == b
  {
    hide Blank;
  }

  lemma ToksNext(s: string)
    requires Blanks(s) < |s|
    ensures var t := s[Blanks(s)..]; Toks(s) == [First(t).0] + Toks(t[First(t).1..])
  {
    hide First, Blank, Blanks;
  }

  lemma LeadsFirst(s: string, b: nat, e: nat, t: Tok)
    requires Leads(s, b, e, t)
    ensures b < e <= |s| && Blanks(s) == b && First(s[b..]) == (t, e - b)
  {
    hide Toks, First, Spelled, Blank;
    SpelledFirst(s, b, e, t);
    BlanksIs(s, b);
  }

  lemma LeadsToks(s: string, b: nat, e: nat, t: Tok)
    requires Leads(s, b, e, t)
    ensures e <= |s| && Toks(s) == [t] + Toks(s[e..])
  {
    hide Leads, Toks, First, Blank, Blanks;
    LeadsFirst(s, b, e, t);
    ToksNext(s);
    assert s[b..][e - b..] == s[e..];
  }

  lemma FirstLeads(s: string) returns (b: nat, e: nat)
    requires Blanks(s) < |s|
    ensures e <= |s| && Toks(s) != [] && Leads(s, b, e, Toks(s)[0])
  {
    b := Blanks(s);
    e := b + First(s[b..]).1;
    FirstSpelled(s, b);
    hide First, Spelled, Blank;
  }

  lemma {:induction false} ToksSpelled(s: string)
    ensures Spells(s, Toks(s))
    decreases |s|
  {
    hide Toks, Leads;
    if Blanks(s) < |s| {
      var b, e := FirstLeads(s);
      LeadsToks(s, b, e, Toks(s)[0]);
      LeadsIn(s, b, e, Toks(s)[0]);
      ToksSpelled(s[e..]);
      assert Toks(s)[1..] == Toks(s[e..]);
    } else {
      ToksBlank(s);
    }
  }

  lemma LeadsIn(s: string, b: nat, e: nat, t: Tok)
    requires Leads(s, b, e, t)
    ensures b < e <= |s|
  {
  }

  lemma ToksBlank(s: string)
    requires Blanks(s) == |s|
    ensures Toks(s) == []
  {
  }

  lemma {:induction false} SpelledToks(s: string, ts: seq<Tok>)
    requires Spells(s, ts)
    ensures Toks(s) == ts
    decreases |ts|
  {
    hide Toks, Leads;
    if ts != [] {
      var b: nat, e: nat :| Leads(s, b, e, ts[0]) && e <= |s| && Spells(s[e..], ts[1..]);
      hide Spells;
      LeadsToks(s, b, e, ts[0]);
      SpelledToks(s[e..], ts[1..]);
      assert ts == [ts[0]] + ts[1..];
    } else {
      assert Blanks(s) == |s|;
      ToksBlank(s);
    }
  }

  // The lexer finds a row that the text spells, and the text spells no other.
  lemma ToksIff(s: string, ts: seq<Tok>)
    ensures Spells(s, ts) <==> Toks(s) == ts
  {
    hide Spells, Toks;
    ToksSpelled(s);
    if Spells(s, ts) { SpelledToks(s, ts); }
  }

  // ---- writing tokens ----

  function TokText(t: Tok): string {
    match t
    case Sym(c) => [c]
    case Append => ">>"
    case Word(w) => w
  }

  predicate TokOk(t: Tok) {
    match t
    case Sym(c) => Symbol(c)
    case Append => true
    case Word(w) => WordText(w)
  }

  // Every token is followed by a space.
  function Chars(ts: seq<Tok>): string {
    if ts == [] then "" else TokText(ts[0]) + " " + Chars(ts[1..])
  }

  lemma {:induction false} WordLenIs(w: string, rest: string)
    requires forall k :: 0 <= k < |w| ==> WordChar(w[k])
    requires rest != "" && Blank(rest[0])
    ensures WordLen(w + rest) == |w|
  {
    if w != "" {
      assert (w + rest)[1..] == w[1..] + rest;
      WordLenIs(w[1..], rest);
    } else {
      assert w + rest == rest;
    }
  }

  lemma FirstOf(t: Tok, rest: string)
    requires TokOk(t) && rest != "" && rest[0] == ' '
    ensures var s := TokText(t) + rest; s != "" && !Blank(s[0]) && First(s) == (t, |TokText(t)|) && s[|TokText(t)|..] == rest
  {
    var s := TokText(t) + rest;
    if t.Word? {
      assert WordChar(t.w[0]) && s[0] == t.w[0];
      WordLenIs(t.w, rest);
      assert s[..|t.w|] == t.w;
    }
  }

  // One written token is read back, and the rest goes on behind the space.
  lemma ToksStep(t: Tok, s: string)
    requires TokOk(t)
    ensures Toks(TokText(t) + " " + s) == [t] + Toks(s)
  {
    var rest := " " + s;
    assert TokText(t) + " " + s == TokText(t) + rest;
    FirstOf(t, rest);
    hide TokText, First;
    ToksFirst(TokText(t) + rest);
    ToksSkip(rest);
    assert rest[1..] == s;
  }

  // Reading written tokens gives them back.
  lemma {:induction false} ToksChars(ts: seq<Tok>)
    requires forall k :: 0 <= k < |ts| ==> TokOk(ts[k])
    ensures Toks(Chars(ts)) == ts
  {
    hide TokOk, TokText, Toks;
    if ts != [] {
      ToksStep(ts[0], Chars(ts[1..]));
      ToksChars(ts[1..]);
    } else {
      assert Toks("") == [] by { ToksNone(); }
    }
  }

  lemma ToksNone()
    ensures Toks("") == []
  {
  }

  ghost predicate AllOk(ts: seq<Tok>) {
    forall k :: 0 <= k < |ts| ==> TokOk(ts[k])
  }

  lemma {:induction false} WordsOk(argv: seq<string>)
    requires forall k :: 0 <= k < |argv| ==> WordText(argv[k])
    ensures AllOk(Words(argv))
  {
    if argv != [] { WordsOk(argv[1..]); }
  }

  lemma Concat3(a: seq<Tok>, b: seq<Tok>, c: seq<Tok>)
    requires AllOk(a) && AllOk(b) && AllOk(c)
    ensures AllOk(a + b + c) && AllOk(a + b)
  {
    hide TokOk;
  }

  lemma SymbolsOk()
    ensures AllOk([Sym('(')]) && AllOk([Sym(')')]) && AllOk([Sym('|')]) && AllOk([Sym('&')]) && AllOk([Sym(';')])
  {
  }

  lemma ArrowOk(mode: nat, file: string)
    requires WordText(file)
    ensures AllOk([Arrow(mode), Word(file)])
  {
  }

  lemma {:induction false} PrintOk(c: Cmd<string>, level: nat)
    requires Writable(c) && level < 4
    ensures AllOk(if level == 0 then PrintExec(c) else if level == 1 then PrintPipe(c) else if level == 2 then PrintBack(c) else PrintLine(c))
    decreases c, Rank(c, level)
  {
    hide AllOk, WordText;
    SymbolsOk();
    match c
    case Exec(argv) => if level == 0 { WordsOk(argv); } else { PrintOk(c, level - 1); }
    case Redir(d, file, mode, fd) =>
      if level == 0 {
        PrintOk(d, 0);
        ArrowOk(mode, file);
        Concat3(PrintExec(d), [Arrow(mode), Word(file)], [Sym('|')]);
      } else { PrintOk(c, level - 1); }
    case Pipe(l, r) =>
      if level == 1 {
        PrintOk(l, 0);
        PrintOk(r, 1);
        Concat3(PrintExec(l), [Sym('|')], PrintPipe(r));
      } else if level == 0 {
        PrintOk(c, 1);
        Concat3([Sym('(')], PrintPipe(c), [Sym(')')]);
      } else { PrintOk(c, level - 1); }
    case Back(d) =>
      if level == 2 {
        PrintOk(d, 2);
        Concat3(PrintBack(d), [Sym('&')], [Sym('&')]);
      } else if level == 0 {
        PrintOk(c, 2);
        Concat3([Sym('(')], PrintBack(c), [Sym(')')]);
      } else { PrintOk(c, if level == 1 then 0 else 2); }
    case List(l, r) =>
      if level == 3 {
        PrintOk(l, 2);
        PrintOk(r, 3);
        Concat3(PrintBack(l), [Sym(';')], PrintLine(r));
      } else if level == 0 {
        PrintOk(c, 3);
        Concat3([Sym('(')], PrintLine(c), [Sym(')')]);
      } else { PrintOk(c, level - 1); }
  }

  // The text of a tree.
  function Source(c: Cmd<string>): string { Chars(PrintLine(c)) }

  // Parsing the text of a tree gives the tree.
  lemma RoundTrip(c: Cmd<string>)
    requires Writable(c)
    ensures ParseCmd(Toks(Source(c))) == Done(c, [])
  {
    PrintOk(c, 3);
    ToksChars(PrintLine(c));
    ParsePrinted(c);
  }
}
