// The shell's command language (sh.c): tokens, command trees, the tree a row of tokens stands for,
// and a canonical way to write a tree.
module ShellGrammar {
  const MAXARGS: nat := 10
  const O_RDONLY: nat := 0
  const O_WRITE: nat := 0x201      // O_WRONLY | O_CREATE

  datatype Tok = Sym(c: char) | Append | Word(w: string)      // Append is >>

  // W is what stands for a word: its text, or where it is in the buffer.
  datatype Cmd<W> =
    | Exec(argv: seq<W>)
    | Redir(cmd: Cmd<W>, file: W, mode: nat, fd: nat)
    | Pipe(left: Cmd<W>, right: Cmd<W>)
    | List(left: Cmd<W>, right: Cmd<W>)
    | Back(cmd: Cmd<W>)

  datatype Redirection<W> = Redirection(file: W, mode: nat, fd: nat)

  datatype Parsed<T> = Done(value: T, rest: seq<Tok>) | Fail(why: string)

  // The redirections of rs around c, the first one innermost.
  function Wrap<W>(c: Cmd<W>, rs: seq<Redirection<W>>): Cmd<W> {
    if rs == [] then c
    else
      var r := rs[|rs| - 1];
      Redir(Wrap(c, rs[..|rs| - 1]), r.file, r.mode, r.fd)
  }

  predicate Starts(ts: seq<Tok>, chars: string) {
    ts != [] && ((ts[0].Sym? && ts[0].c in chars) || (ts[0].Append? && '>' in chars))
  }

  // ---- the parser on tokens ----

  function ParseRedirs(ts: seq<Tok>): (p: Parsed<seq<Redirection<string>>>)
    ensures p.Done? ==> |p.rest| <= |ts| && !Starts(p.rest, "<>")
    decreases |ts|
  {
    if !Starts(ts, "<>") then Done([], ts)
    else if |ts| < 2 || !ts[1].Word? then Fail("missing file for redirection")
    else
      var r := if ts[0] == Sym('<') then Redirection(ts[1].w, O_RDONLY, 0) else Redirection(ts[1].w, O_WRITE, 1);
      match ParseRedirs(ts[2..])
      case Fail(why) => Fail(why)
      case Done(rs, rest) => Done([r] + rs, rest)
  }

  // The loop of parseexec.
  function ParseArgs(argv: seq<string>, rs: seq<Redirection<string>>, ts: seq<Tok>): (p: Parsed<Cmd<string>>)
    ensures p.Done? ==> |p.rest| <= |ts|
    decreases |ts|
  {
    if Starts(ts, "|)&;") || ts == [] then Done(Wrap(Exec(argv), rs), ts)
    else if !ts[0].Word? then Fail("syntax")
    else if |argv| + 1 >= MAXARGS then Fail("too many args")
    else
      match ParseRedirs(ts[1..])
      case Fail(why) => Fail(why)
      case Done(more, rest) => ParseArgs(argv + [ts[0].w], rs + more, rest)
  }

  function ParseExec(ts: seq<Tok>): (p: Parsed<Cmd<string>>)
    ensures p.Done? ==> |p.rest| <= |ts|
    decreases |ts|, 1
  {
    if Starts(ts, "(") then ParseBlock(ts)
    else
      match ParseRedirs(ts)
      case Fail(why) => Fail(why)
      case Done(rs, rest) => ParseArgs([], rs, rest)
  }

  function ParseBlock(ts: seq<Tok>): (p: Parsed<Cmd<string>>)
    requires Starts(ts, "(")
    ensures p.Done? ==> |p.rest| <= |ts|
    decreases |ts|, 0
  {
    match ParseLine(ts[1..])
    case Fail(why) => Fail(why)
    case Done(cmd, rest) =>
      if !Starts(rest, ")") then Fail("syntax - missing )")
      else
        match ParseRedirs(rest[1..])
        case Fail(why) => Fail(why)
        case Done(rs, rest') => Done(Wrap(cmd, rs), rest')
  }

  function ParsePipe(ts: seq<Tok>): (p: Parsed<Cmd<string>>)
    ensures p.Done? ==> |p.rest| <= |ts|
    decreases |ts|, 2
  {
    match ParseExec(ts)
    case Fail(why) => Fail(why)
    case Done(cmd, rest) =>
      if !Starts(rest, "|") then Done(cmd, rest)
      else
        match ParsePipe(rest[1..])
        case Fail(why) => Fail(why)
        case Done(right, rest') => Done(Pipe(cmd, right), rest')
  }

  // The loop of parseline.
  function ParseBacks(cmd: Cmd<string>, ts: seq<Tok>): (p: (Cmd<string>, seq<Tok>))
    ensures |p.1| <= |ts| && !Starts(p.1, "&")
    decreases |ts|
  {
    if !Starts(ts, "&") then (cmd, ts) else ParseBacks(Back(cmd), ts[1..])
  }

  function ParseLine(ts: seq<Tok>): (p: Parsed<Cmd<string>>)
    ensures p.Done? ==> |p.rest| <= |ts|
    decreases |ts|, 3
  {
    match ParsePipe(ts)
    case Fail(why) => Fail(why)
    case Done(first, rest) =>
      var (cmd, rest1) := ParseBacks(first, rest);
      if !Starts(rest1, ";") then Done(cmd, rest1)
      else
        match ParseLine(rest1[1..])
        case Fail(why) => Fail(why)
        case Done(right, rest') => Done(List(cmd, right), rest')
  }

  function ParseCmd(ts: seq<Tok>): (p: Parsed<Cmd<string>>) {
    match ParseLine(ts)
    case Fail(why) => Fail(why)
    case Done(cmd, rest) => if rest != [] then Fail("syntax") else Done(cmd, rest)
  }

  // ---- canonical printing ----

  predicate WordText(w: string) {
    w != "" && forall k :: 0 <= k < |w| ==> WordChar(w[k])
  }

  predicate Blank(c: char) { c in " \t\r\n\U{000B}" }

  predicate Symbol(c: char) { c in "<|>&;()" }

  predicate WordChar(c: char) { !Blank(c) && !Symbol(c) && c != '\0' }

  // The trees that can be written: at most 9 arguments, words free of blanks and symbols, and the
  // two kinds of redirection there are.
  predicate Writable(c: Cmd<string>) {
    match c
    case Exec(argv) => |argv| < MAXARGS && forall k :: 0 <= k < |argv| ==> WordText(argv[k])
    case Redir(d, file, mode, fd) =>
      Writable(d) && WordText(file) && ((mode == O_RDONLY && fd == 0) || (mode == O_WRITE && fd == 1))
    case Pipe(l, r) => Writable(l) && Writable(r)
    case List(l, r) => Writable(l) && Writable(r)
    case Back(d) => Writable(d)
  }

  function Words(argv: seq<string>): seq<Tok> {
    if argv == [] then [] else [Word(argv[0])] + Words(argv[1..])
  }

  function Arrow(mode: nat): Tok { if mode == O_RDONLY then Sym('<') else Sym('>') }

  // One element of a pipeline: arguments with redirections, or a block with redirections.
  function PrintExec(c: Cmd<string>): seq<Tok>
    decreases c, 1
  {
    match c
    case Exec(argv) => Words(argv)
    case Redir(d, file, mode, fd) => PrintExec(d) + [Arrow(mode), Word(file)]
    case Pipe(l, r) => [Sym('(')] + PrintPipe(c) + [Sym(')')]
    case List(l, r) => [Sym('(')] + PrintLine(c) + [Sym(')')]
    case Back(d) => [Sym('(')] + PrintBack(c) + [Sym(')')]
  }

  function PrintPipe(c: Cmd<string>): seq<Tok>
    decreases c, if c.Pipe? then 0 else 2
  {
    if c.Pipe? then PrintExec(c.left) + [Sym('|')] + PrintPipe(c.right) else PrintExec(c)
  }

  function PrintBack(c: Cmd<string>): seq<Tok>
    decreases c, if c.Back? then 0 else 3
  {
    if c.Back? then PrintBack(c.cmd) + [Sym('&')] else PrintPipe(c)
  }

  function PrintLine(c: Cmd<string>): seq<Tok>
    decreases c, if c.List? then 0 else 4
  {
    if c.List? then PrintBack(c.left) + [Sym(';')] + PrintLine(c.right) else PrintBack(c)
  }
}
