// The shell's parser (sh.c): a cursor moves over one buffer, words are kept as places in it, and in
// the end every word is closed off with a NUL in the same buffer.
module Shell {
  import opened ShellGrammar
  import opened ShellLexer
  import opened ShellDerivation

  // A word's place: q and eq.
  datatype Span = Span(q: nat, eq: nat)

  datatype Out<T> = Got(value: T) | Panic(why: string)

  // ---- words in the buffer ----

  predicate WordSpan(text: string, w: Span) {
    && w.q < w.eq <= |text|
    && (forall k :: w.q <= k < w.eq ==> WordChar(text[k]))
    && (w.eq < |text| ==> !WordChar(text[w.eq]))
  }

  predicate SpansIn(c: Cmd<Span>, text: string) {
    match c
    case Exec(argv) => forall k :: 0 <= k < |argv| ==> WordSpan(text, argv[k])
    case Redir(d, file, _, _) => SpansIn(d, text) && WordSpan(text, file)
    case Pipe(l, r) => SpansIn(l, text) && SpansIn(r, text)
    case List(l, r) => SpansIn(l, text) && SpansIn(r, text)
    case Back(d) => SpansIn(d, text)
  }

  predicate RedirsIn(rs: seq<Redirection<Span>>, text: string) {
    forall k :: 0 <= k < |rs| ==> WordSpan(text, rs[k].file)
  }

  // The original text of a word; empty if the place is not in the text.
  function Slice(w: Span, text: string): string {
    if w.q <= w.eq <= |text| then text[w.q..w.eq] else ""
  }

  function Slices(ws: seq<Span>, text: string): (r: seq<string>)
    ensures |r| == |ws| && forall k :: 0 <= k < |ws| ==> r[k] == Slice(ws[k], text)
  {
    if ws == [] then [] else Slices(ws[..|ws| - 1], text) + [Slice(ws[|ws| - 1], text)]
  }

  function RedirTexts(rs: seq<Redirection<Span>>, text: string): (r: seq<Redirection<string>>)
    ensures |r| == |rs| && forall k :: 0 <= k < |rs| ==> r[k] == Redirection(Slice(rs[k].file, text), rs[k].mode, rs[k].fd)
  {
    if rs == [] then []
    else
      var r := rs[|rs| - 1];
      RedirTexts(rs[..|rs| - 1], text) + [Redirection(Slice(r.file, text), r.mode, r.fd)]
  }

  // The tree with the original texts of its words.
  function TextOf(c: Cmd<Span>, text: string): Cmd<string> {
    match c
    case Exec(argv) => Exec(Slices(argv, text))
    case Redir(d, file, mode, fd) => Redir(TextOf(d, text), Slice(file, text), mode, fd)
    case Pipe(l, r) => Pipe(TextOf(l, text), TextOf(r, text))
    case List(l, r) => List(TextOf(l, text), TextOf(r, text))
    case Back(d) => Back(TextOf(d, text))
  }

  lemma {:induction false} WrapText(c: Cmd<Span>, rs: seq<Redirection<Span>>, text: string)
    requires SpansIn(c, text) && RedirsIn(rs, text)
    ensures SpansIn(Wrap(c, rs), text) && TextOf(Wrap(c, rs), text) == Wrap(TextOf(c, text), RedirTexts(rs, text))
  {
    if rs != [] {
      WrapText(c, rs[..|rs| - 1], text);
      assert RedirTexts(rs, text)[..|rs| - 1] == RedirTexts(rs[..|rs| - 1], text);
    }
  }

  lemma RedirsMore(rs: seq<Redirection<Span>>, more: seq<Redirection<Span>>, text: string)
    requires RedirsIn(rs, text) && RedirsIn(more, text)
    ensures RedirsIn(rs + more, text) && RedirTexts(rs + more, text) == RedirTexts(rs, text) + RedirTexts(more, text)
  {
  }

  lemma SlicesMore(ws: seq<Span>, w: Span, text: string)
    ensures Slices(ws + [w], text) == Slices(ws, text) + [Slice(w, text)]
  {
  }

  // ---- the lexer's steps by position ----

  lemma {:induction false} SkipTo(text: string, p: nat, s: nat)
    requires p <= s <= |text| && forall k :: p <= k < s ==> Blank(text[k])
    ensures Toks(text[p..]) == Toks(text[s..])
    decreases s - p
  {
    if p < s {
      ToksSkip(text[p..]);
      assert text[p..][1..] == text[p + 1..];
      SkipTo(text, p + 1, s);
    }
  }

  // What gettoken returns for a token; 'a' stands for a word, 0 for the end.
  function Code(ts: seq<Tok>): char {
    if ts == [] then '\0' else match ts[0] case Sym(c) => c case Append => '+' case Word(_) => 'a'
  }

  class Parser {
    const buf: array<char>
    const es: nat
    ghost const text: string       // the buffer up to es before anything is terminated
    var ps: nat

    // parsecmd: es = s + strlen(s)
    constructor (b: array<char>, n: nat)
      requires n < b.Length && b[n] == '\0' && forall k :: 0 <= k < n ==> b[k] != '\0'
      ensures Valid() && buf == b && es == n && text == b[..n] && ps == 0
    {
      buf, es, ps := b, n, 0;
      text := b[..n];
    }

    ghost predicate Valid()
      reads this, buf
    {
      && es < buf.Length && buf[es] == '\0' && |text| == es && ps <= es
      && forall k :: 0 <= k < es ==> buf[k] == text[k] && text[k] != '\0'
    }

    // The tokens still to come.
    ghost function Left(): seq<Tok>
      requires ps <= |text|
      reads this`ps
    {
      Toks(text[ps..])
    }

    method SkipBlanks(from: nat) returns (s: nat)
      requires Valid() && from <= es
      ensures from <= s <= es && Toks(text[from..]) == Toks(text[s..]) && (s < es ==> !Blank(text[s]))
    {
      s := from;
      while s < es && Blank(buf[s])
        invariant from <= s <= es && forall k :: from <= k < s ==> Blank(text[k])
      {
        s := s + 1;
      }
      SkipTo(text, from, s);
    }

    method Gettoken() returns (ret: char, w: Span)
      requires Valid()
      modifies this`ps
      ensures Valid() && ret == Code(old(Left())) && (ret == '\0' <==> old(Left()) == [])
      ensures old(Left()) == [] ==> ps == es && Left() == []
      ensures old(Left()) != [] ==> ps > old(ps) && Left() == old(Left())[1..]
      ensures ret == 'a' ==> WordSpan(text, w) && old(Left())[0] == Word(Slice(w, text))
    {
      hide Toks, Blank, Symbol;
      var s := SkipBlanks(ps);
      var q := s;
      if s == es {
        EndToks(text, s);
        ps := s;
        return '\0', Span(q, s);
      }
      ToksFirst(text[s..]);
      ret, s := TokenAt(q);
      w := Span(q, s);
      s := SkipBlanks(s);
      ps := s;
    }

    // The switch in gettoken: the token at q and where it ends.
    method TokenAt(q: nat) returns (ret: char, s: nat)
      requires Valid() && q < es && !Blank(text[q])
      ensures q < s <= es && ret != '\0' && ret == Code([First(text[q..]).0])
      ensures text[q..][First(text[q..]).1..] == text[s..]
      ensures ret == 'a' ==> WordSpan(text, Span(q, s)) && First(text[q..]).0 == Word(text[q..s])
    {
      hide Toks, Blank, Symbol, First;
      FirstIs(text, q);
      s := q;
      ret := buf[s];
      if ret in "|();&<" {
        s := s + 1;
      } else if ret == '>' {
        s := s + 1;
        if buf[s] == '>' {
          ret := '+';
          s := s + 1;
        }
      } else {
        ret := 'a';
        s := WordEnd(s);
      }
      Rest(text, q, s);
    }

    method WordEnd(from: nat) returns (s: nat)
      requires Valid() && from < es && !Blank(text[from]) && !Symbol(text[from])
      ensures from < s <= es && s == from + WordLen(text[from..]) && WordSpan(text, Span(from, s))
    {
      s := from;
      while s < es && !Blank(buf[s]) && !Symbol(buf[s])
        invariant from <= s <= es && forall k :: from <= k < s ==> !Blank(text[k]) && !Symbol(text[k])
      {
        s := s + 1;
      }
      WordLenAt(text[from..], s - from);
    }

    method Peek(toks: string) returns (r: bool)
      requires Valid() && forall k :: 0 <= k < |toks| ==> Symbol(toks[k])
      modifies this`ps
      ensures Valid() && ps >= old(ps) && Left() == old(Left())
      ensures r <==> Starts(Left(), toks)
      ensures Left() == [] <==> ps == es
    {
      hide Toks, Blank;
      ps := SkipBlanks(ps);
      if ps == es {
        EndToks(text, ps);
        return false;
      }
      ToksFirst(text[ps..]);
      PeekIs(text, ps, toks);
      r := buf[ps] in toks;
    }

    // Does r say what the parser on tokens says?
    ghost predicate Agrees(p: Parsed<Cmd<string>>, r: Out<Cmd<Span>>)
      requires ps <= |text|
      reads this`ps
    {
      match p
      case Fail(why) => r == Panic(why)
      case Done(c, rest) => r.Got? && SpansIn(r.value, text) && TextOf(r.value, text) == c && Left() == rest
    }

    ghost predicate AgreesRedirs(p: Parsed<seq<Redirection<string>>>, r: Out<seq<Redirection<Span>>>)
      requires ps <= |text|
      reads this`ps
    {
      match p
      case Fail(why) => r == Panic(why)
      case Done(rs, rest) => r.Got? && RedirsIn(r.value, text) && RedirTexts(r.value, text) == rs && Left() == rest
    }

    // The redirections wrap the command they follow; parseexec's command is still collecting arguments
    // then, so they are kept apart until it is complete.
    method Parseredirs() returns (r: Out<seq<Redirection<Span>>>)
      requires Valid()
      modifies this`ps
      ensures Valid() && ps >= old(ps) && AgreesRedirs(ParseRedirs(old(Left())), r)
    {
      hide Toks, ParseRedirs, RedirTexts, RedirsIn, WordSpan, Slice;
      var rs: seq<Redirection<Span>> := [];
      ghost var ts0 := Left();
      NoRedirTexts(text);
      RedirsGo(ts0, [], ts0);
      var more := Peek("<>");
      while more
        invariant Valid() && ps >= old(ps) && (more <==> Starts(Left(), "<>"))
        invariant RedirsIn(rs, text) && RedirsSoFar(ts0, RedirTexts(rs, text), Left())
        decreases es - ps
      {
        ghost var ts := Left();
        var tok, _ := Gettoken();
        RedirStep(ts0, RedirTexts(rs, text), ts);
        ghost var ts1 := Left();
        var c, w := Gettoken();
        if c != 'a' {
          NotWord(ts1);
          return Panic("missing file for redirection");
        }
        var x := if tok == '<' then Redirection(w, O_RDONLY, 0) else Redirection(w, O_WRITE, 1);
        OneRedir(x, text);
        RedirsMore(rs, [x], text);
        rs := rs + [x];
        more := Peek("<>");
      }
      RedirsEnd(ts0, RedirTexts(rs, text), Left());
      r := Got(rs);
    }

    method Parseexec() returns (r: Out<Cmd<Span>>)
      requires Valid()
      modifies this`ps
      ensures Valid() && ps >= old(ps) && Agrees(ParseExec(old(Left())), r)
      decreases es - ps, 1
    {
      hide Toks, ParseRedirs, ParseArgs, ParseBlock, TextOf, SpansIn;
      var block := Peek("(");
      if block {
        r := Parseblock();
        return;
      }
      ghost var ts0 := Left();
      var x := Parseredirs();
      if x.Panic? {
        return Panic(x.why);
      }
      r := ParseArguments(x.value);
    }

    // The loop of parseexec.
    method ParseArguments(rs0: seq<Redirection<Span>>) returns (r: Out<Cmd<Span>>)
      requires Valid() && RedirsIn(rs0, text)
      modifies this`ps
      ensures Valid() && ps >= old(ps) && Agrees(ParseArgs([], RedirTexts(rs0, text), old(Left())), r)
    {
      hide Toks, ParseRedirs, ParseArgs, RedirTexts, RedirsIn, WordSpan, Slice, TextOf, SpansIn, Wrap;
      var rs := rs0;
      var argv: seq<Span> := [];
      ghost var ts0 := Left();
      var stop := Peek("|)&;");
      while !stop
        invariant Valid() && ps >= old(ps) && (stop <==> Starts(Left(), "|)&;"))
        invariant RedirsIn(rs, text) && (forall k :: 0 <= k < |argv| ==> WordSpan(text, argv[k])) && |argv| < MAXARGS
        invariant ParseArgs([], RedirTexts(rs0, text), ts0) == ParseArgs(Slices(argv, text), RedirTexts(rs, text), Left())
        decreases es - ps, !stop
      {
        ghost var ts := Left();
        ArgsStep(Slices(argv, text), RedirTexts(rs, text), ts);
        var tok, w := Gettoken();
        if tok == '\0' {
          break;
        }
        if tok != 'a' {
          NotWord(ts);
          return Panic("syntax");
        }
        SlicesMore(argv, w, text);
        argv := argv + [w];
        if |argv| >= MAXARGS {
          return Panic("too many args");
        }
        ghost var rs1 := rs;
        var x := Parseredirs();
        if x.Panic? {
          return Panic(x.why);
        }
        RedirsMore(rs, x.value, text);
        rs := rs + x.value;
        stop := Peek("|)&;");
      }
      ArgsDone(Slices(argv, text), RedirTexts(rs, text), Left());
      ExecText(argv, text);
      WrapText(Exec(argv), rs, text);
      r := Got(Wrap(Exec(argv), rs));
    }

    method Parseblock() returns (r: Out<Cmd<Span>>)
      requires Valid() && Starts(Left(), "(")
      modifies this`ps
      ensures Valid() && ps >= old(ps) && Agrees(ParseBlock(old(Left())), r)
      decreases es - ps, 0
    {
      hide Toks, ParseRedirs, ParseLine, TextOf, SpansIn, Wrap, RedirTexts, RedirsIn;
      var open := Peek("(");
      if !open {
        return Panic("parseblock");
      }
      var tok, w := Gettoken();
      var l := Parseline();
      if l.Panic? {
        return l;
      }
      var close := Peek(")");
      if !close {
        return Panic("syntax - missing )");
      }
      tok, w := Gettoken();
      var x := Parseredirs();
      if x.Panic? {
        return Panic(x.why);
      }
      WrapText(l.value, x.value, text);
      r := Got(Wrap(l.value, x.value));
    }

    method Parsepipe() returns (r: Out<Cmd<Span>>)
      requires Valid()
      modifies this`ps
      ensures Valid() && ps >= old(ps) && Agrees(ParsePipe(old(Left())), r)
      decreases es - ps, 2
    {
      hide Toks, ParseExec;
      r := Parseexec();
      if r.Panic? {
        return;
      }
      var left := r.value;
      var bar := Peek("|");
      if bar {
        var tok, w := Gettoken();
        var right := Parsepipe();
        if right.Panic? {
          return right;
        }
        r := Got(Pipe(left, right.value));
      }
    }

    method Parseline() returns (r: Out<Cmd<Span>>)
      requires Valid()
      modifies this`ps
      ensures Valid() && ps >= old(ps) && Agrees(ParseLine(old(Left())), r)
      decreases es - ps, 3
    {
      hide Toks, ParsePipe, ParseBacks;
      r := Parsepipe();
      if r.Panic? {
        return;
      }
      var cmd := ParseAmps(r.value);
      r := Got(cmd);
      var semi := Peek(";");
      if semi {
        var tok, w := Gettoken();
        var right := Parseline();
        if right.Panic? {
          return right;
        }
        r := Got(List(cmd, right.value));
      }
    }

    // The loop of parseline.
    method ParseAmps(first: Cmd<Span>) returns (cmd: Cmd<Span>)
      requires Valid() && SpansIn(first, text)
      modifies this`ps
      ensures Valid() && ps >= old(ps) && SpansIn(cmd, text)
      ensures ParseBacks(TextOf(first, text), old(Left())) == (TextOf(cmd, text), Left())
    {
      hide Toks;
      cmd := first;
      ghost var ts0 := Left();
      var amp := Peek("&");
      while amp
        invariant Valid() && ps >= old(ps) && SpansIn(cmd, text) && (amp <==> Starts(Left(), "&"))
        invariant ParseBacks(TextOf(first, text), ts0) == ParseBacks(TextOf(cmd, text), Left())
        decreases es - ps
      {
        var tok, w := Gettoken();
        cmd := Back(cmd);
        amp := Peek("&");
      }
    }

    // nulterminate: every word's end becomes a NUL.
    method Nulterminate(c: Cmd<Span>)
      requires SpansIn(c, text) && |text| == es < buf.Length
      modifies buf
      ensures forall k :: 0 <= k < buf.Length ==> buf[k] == if k in Ends(c) then '\0' else old(buf[k])
      decreases c
    {
      hide WordSpan;
      match c {
        case Exec(argv) =>
          var i := 0;
          while i < |argv|
            invariant 0 <= i <= |argv|
            invariant forall k :: 0 <= k < buf.Length ==> buf[k] == if k in EndsOf(argv[..i]) then '\0' else old(buf[k])
          {
            SpanEnd(text, argv[i]);
            assert argv[..i + 1][..i] == argv[..i];
            buf[argv[i].eq] := '\0';
            i := i + 1;
          }
          assert argv[..|argv|] == argv;
        case Redir(d, file, mode, fd) =>
          Nulterminate(d);
          SpanEnd(text, file);
          buf[file.eq] := '\0';
        case Pipe(l, r) =>
          Nulterminate(l);
          Nulterminate(r);
        case List(l, r) =>
          Nulterminate(l);
          Nulterminate(r);
        case Back(d) =>
          Nulterminate(d);
      }
    }

    // parsecmd: the words of the tree, read from the terminated buffer, are those of the text.
    method Parsecmd() returns (r: Out<Cmd<Span>>)
      requires Valid() && ps == 0
      modifies this`ps, buf
      ensures r.Got? ==> StandsFor(text, ReadCmd(r.value, buf[..]))
      ensures r.Panic? ==> (forall c :: !StandsFor(text, c)) && ParseCmd(Toks(text)) == Fail(r.why)
    {
      hide Toks, ParseLine, StandsFor, Agrees, ReadCmd, TextOf, SpansIn, Ends;
      assert text[0..] == text;
      ghost var ts0 := Left();
      r := Parseline();
      AgreesMeans(ParseLine(ts0), r);
      forall c ensures StandsFor(text, c) <==> ParseCmd(ts0).Done? && ParseCmd(ts0).value == c { StandsIff(text, c); }
      if r.Panic? {
        return;
      }
      var x := Peek("");
      if ps != es {
        return Panic("syntax");
      }
      Nulterminate(r.value);
      ReadBack(r.value, text, buf[..]);
    }

    lemma AgreesMeans(p: Parsed<Cmd<string>>, r: Out<Cmd<Span>>)
      requires ps <= |text| && Agrees(p, r)
      ensures p.Fail? ==> r == Panic(p.why)
      ensures p.Done? ==> r.Got? && SpansIn(r.value, text) && TextOf(r.value, text) == p.value && Left() == p.rest
    {
    }
  }

  // Where the words of a tree end.
  function EndsOf(ws: seq<Span>): set<nat> {
    if ws == [] then {} else EndsOf(ws[..|ws| - 1]) + {ws[|ws| - 1].eq}
  }

  function Ends(c: Cmd<Span>): set<nat> {
    match c
    case Exec(argv) => EndsOf(argv)
    case Redir(d, file, _, _) => Ends(d) + {file.eq}
    case Pipe(l, r) => Ends(l) + Ends(r)
    case List(l, r) => Ends(l) + Ends(r)
    case Back(d) => Ends(d)
  }

  lemma SpanEnd(text: string, w: Span)
    requires WordSpan(text, w)
    ensures w.eq <= |text|
  {
  }

  // The C string that starts at q.
  function CString(b: seq<char>, q: nat): string
    decreases |b| - q
  {
    if q >= |b| || b[q] == '\0' then "" else [b[q]] + CString(b, q + 1)
  }

  function CStrings(ws: seq<Span>, b: seq<char>): (r: seq<string>)
    ensures |r| == |ws| && forall k :: 0 <= k < |ws| ==> r[k] == CString(b, ws[k].q)
  {
    if ws == [] then [] else CStrings(ws[..|ws| - 1], b) + [CString(b, ws[|ws| - 1].q)]
  }

  // The tree as runcmd sees it: every word is the C string at its place in the buffer.
  function ReadCmd(c: Cmd<Span>, b: seq<char>): Cmd<string> {
    match c
    case Exec(argv) => Exec(CStrings(argv, b))
    case Redir(d, file, mode, fd) => Redir(ReadCmd(d, b), CString(b, file.q), mode, fd)
    case Pipe(l, r) => Pipe(ReadCmd(l, b), ReadCmd(r, b))
    case List(l, r) => List(ReadCmd(l, b), ReadCmd(r, b))
    case Back(d) => Back(ReadCmd(d, b))
  }

  // Words are closed off at ends that lie in no word.
  ghost predicate Terminated(text: string, b: seq<char>, ends: set<nat>) {
    && |b| > |text| && b[|text|] == '\0'
    && (forall e :: e in ends ==> e == |text| || (e < |text| && !WordChar(text[e])))
    && (forall k :: 0 <= k < |text| ==> b[k] == if k in ends then '\0' else text[k])
  }

  lemma {:induction false} ReadWord(text: string, b: seq<char>, ends: set<nat>, w: Span, k: nat)
    requires Terminated(text, b, ends) && WordSpan(text, w) && w.eq in ends && w.q <= k <= w.eq
    ensures CString(b, k) == text[k..w.eq]
    decreases w.eq - k
  {
    if k < w.eq {
      assert WordChar(text[k]) && k !in ends;
      ReadWord(text, b, ends, w, k + 1);
    }
  }

  lemma {:induction false} EndsWords(ws: seq<Span>, text: string)
    requires forall k :: 0 <= k < |ws| ==> WordSpan(text, ws[k])
    ensures forall e :: e in EndsOf(ws) ==> e == |text| || (e < |text| && !WordChar(text[e]))
    ensures forall k :: 0 <= k < |ws| ==> ws[k].eq in EndsOf(ws)
  {
    hide WordChar;
    if ws != [] { EndsWords(ws[..|ws| - 1], text); }
  }

  lemma {:induction false} EndsOutside(c: Cmd<Span>, text: string)
    requires SpansIn(c, text)
    ensures forall e :: e in Ends(c) ==> e == |text| || (e < |text| && !WordChar(text[e]))
  {
    hide WordChar;
    match c
    case Exec(argv) => EndsWords(argv, text);
    case Redir(d, file, mode, fd) => EndsOutside(d, text);
    case Pipe(l, r) => EndsOutside(l, text); EndsOutside(r, text);
    case List(l, r) => EndsOutside(l, text); EndsOutside(r, text);
    case Back(d) => EndsOutside(d, text);
  }

  lemma {:induction false} ReadTree(c: Cmd<Span>, text: string, b: seq<char>, ends: set<nat>)
    requires SpansIn(c, text) && Ends(c) <= ends && Terminated(text, b, ends)
    ensures ReadCmd(c, b) == TextOf(c, text)
  {
    hide Terminated, WordSpan;
    match c
    case Exec(argv) =>
      EndsWords(argv, text);
      forall k | 0 <= k < |argv| ensures CString(b, argv[k].q) == Slice(argv[k], text) {
        WordRead(text, b, ends, argv[k]);
      }
      assert CStrings(argv, b) == Slices(argv, text);
    case Redir(d, file, mode, fd) => ReadTree(d, text, b, ends); WordRead(text, b, ends, file);
    case Pipe(l, r) => ReadTree(l, text, b, ends); ReadTree(r, text, b, ends);
    case List(l, r) => ReadTree(l, text, b, ends); ReadTree(r, text, b, ends);
    case Back(d) => ReadTree(d, text, b, ends);
  }

  lemma WordRead(text: string, b: seq<char>, ends: set<nat>, w: Span)
    requires Terminated(text, b, ends) && WordSpan(text, w) && w.eq in ends
    ensures CString(b, w.q) == Slice(w, text)
  {
    ReadWord(text, b, ends, w, w.q);
  }

  // After nulterminate every word of the tree reads as its original text.
  lemma ReadBack(c: Cmd<Span>, text: string, b: seq<char>)
    requires SpansIn(c, text) && |b| > |text| && b[|text|] == '\0'
    requires forall k :: 0 <= k < |text| ==> b[k] == if k in Ends(c) then '\0' else text[k]
    ensures ReadCmd(c, b) == TextOf(c, text)
  {
    EndsOutside(c, text);
    ReadTree(c, text, b, Ends(c));
  }

  function ArgsThen(argv: seq<string>, rs: seq<Redirection<string>>, p: Parsed<seq<Redirection<string>>>): Parsed<Cmd<string>> {
    match p
    case Fail(why) => Fail(why)
    case Done(more, rest) => ParseArgs(argv, rs + more, rest)
  }

  lemma ArgsStep(argv: seq<string>, rs: seq<Redirection<string>>, ts: seq<Tok>)
    requires !Starts(ts, "|)&;")
    ensures ts != [] && !ts[0].Word? ==> ParseArgs(argv, rs, ts) == Fail("syntax")
    ensures ts != [] && ts[0].Word? && |argv| + 1 >= MAXARGS ==> ParseArgs(argv, rs, ts) == Fail("too many args")
    ensures ts != [] && ts[0].Word? && |argv| + 1 < MAXARGS ==>
              ParseArgs(argv, rs, ts) == ArgsThen(argv + [ts[0].w], rs, ParseRedirs(ts[1..]))
  {
    hide ParseRedirs;
  }

  lemma ArgsDone(argv: seq<string>, rs: seq<Redirection<string>>, ts: seq<Tok>)
    requires ts == [] || Starts(ts, "|)&;")
    ensures ParseArgs(argv, rs, ts) == Done(Wrap(Exec(argv), rs), ts)
  {
  }

  lemma ExecText(argv: seq<Span>, text: string)
    requires forall k :: 0 <= k < |argv| ==> WordSpan(text, argv[k])
    ensures SpansIn(Exec(argv), text) && TextOf(Exec(argv), text) == Exec(Slices(argv, text))
  {
  }

  // The loop of parseredirs has read the redirections rs of ts0; ts is still to come.
  ghost predicate RedirsSoFar(ts0: seq<Tok>, rs: seq<Redirection<string>>, ts: seq<Tok>) {
    match ParseRedirs(ts)
    case Fail(why) => ParseRedirs(ts0) == Fail(why)
    case Done(more, rest) => ParseRedirs(ts0) == Done(rs + more, rest)
  }

  lemma RedirsGo(ts0: seq<Tok>, rs: seq<Redirection<string>>, ts: seq<Tok>)
    requires rs == [] && ts == ts0
    ensures RedirsSoFar(ts0, rs, ts)
  {
    hide ParseRedirs;
    match ParseRedirs(ts)
    case Fail(why) =>
    case Done(more, rest) => assert rs + more == more;
  }

  lemma RedirStep(ts0: seq<Tok>, rs: seq<Redirection<string>>, ts: seq<Tok>)
    requires RedirsSoFar(ts0, rs, ts) && Starts(ts, "<>")
    ensures |ts| < 2 || !ts[1].Word? ==> ParseRedirs(ts0) == Fail("missing file for redirection")
    ensures |ts| >= 2 && ts[1].Word? ==>
              var r := if ts[0] == Sym('<') then Redirection(ts[1].w, O_RDONLY, 0) else Redirection(ts[1].w, O_WRITE, 1);
              ts[1..] != [] && RedirsSoFar(ts0, rs + [r], ts[1..][1..])
  {
    if |ts| >= 2 && ts[1].Word? {
      var r := if ts[0] == Sym('<') then Redirection(ts[1].w, O_RDONLY, 0) else Redirection(ts[1].w, O_WRITE, 1);
      assert ts[1..][1..] == ts[2..];
      match ParseRedirs(ts[2..]) {
        case Fail(why) =>
        case Done(more, rest) => assert rs + ([r] + more) == rs + [r] + more;
      }
    }
  }

  lemma RedirsEnd(ts0: seq<Tok>, rs: seq<Redirection<string>>, ts: seq<Tok>)
    requires RedirsSoFar(ts0, rs, ts) && !Starts(ts, "<>")
    ensures ParseRedirs(ts0) == Done(rs, ts)
  {
    assert rs + [] == rs;
  }

  lemma NotWord(ts: seq<Tok>)
    requires Code(ts) != 'a'
    ensures ts == [] || !ts[0].Word?
  {
  }

  lemma NoRedirTexts(text: string)
    ensures RedirsIn([], text) && RedirTexts([], text) == []
  {
  }

  lemma OneRedir(x: Redirection<Span>, text: string)
    requires WordSpan(text, x.file)
    ensures RedirsIn([x], text) && RedirTexts([x], text) == [Redirection(Slice(x.file, text), x.mode, x.fd)]
  {
    assert [x][..0] == [];
  }

  lemma EndToks(text: string, s: nat)
    requires s == |text|
    ensures Toks(text[s..]) == []
  {
    assert text[s..] == "";
  }

  // The first token at s, in terms of the characters there.
  lemma FirstIs(text: string, s: nat)
    requires s < |text| && !Blank(text[s])
    ensures var t := text[s..]; var f := First(t);
      && t[0] == text[s]
      && (text[s] in "|();&<" ==> f == (Sym(text[s]), 1))
      && (text[s] == '>' ==> f == if s + 1 < |text| && text[s + 1] == '>' then (Append, 2) else (Sym('>'), 1))
      && (text[s] !in "|();&<" && text[s] != '>' ==> !Symbol(text[s]) && f == (Word(t[..WordLen(t)]), WordLen(t)))
  {
  }

  lemma Rest(text: string, q: nat, s: nat)
    requires q <= s <= |text|
    ensures text[q..][s - q..] == text[s..] && text[q..][..s - q] == text[q..s]
  {
  }

  lemma PeekIs(text: string, s: nat, toks: string)
    requires s < |text| && !Blank(text[s]) && forall k :: 0 <= k < |toks| ==> Symbol(toks[k])
    ensures text[s] in toks <==> Starts([First(text[s..]).0], toks)
  {
  }
}
