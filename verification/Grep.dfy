// The regular expression matcher of grep.c against a declarative meaning of its patterns.
// A C string is the sequence of its characters without the final NUL.
module Grep {
  // A pattern is a row of tokens.  A character followed by '*' is a star whatever the character is;
  // '$' is the end of the text only as the last character; '^' is special only in front.
  datatype Token = Lit(c: char) | Any | Star(c: char) | End

  function Tokens(re: string): (ts: seq<Token>)
    ensures |re| > 0 ==> |ts| > 0
    ensures forall i :: 0 <= i < |ts| - 1 ==> ts[i] != End
  {
    if re == "" then []
    else if |re| >= 2 && re[1] == '*' then [Star(re[0])] + Tokens(re[2..])
    else if re == "$" then [End]
    else [if re[0] == '.' then Any else Lit(re[0])] + Tokens(re[1..])
  }

  // The strings a token stands for.
  predicate Piece(t: Token, s: string) {
    match t
    case Lit(c) => s == [c]
    case Any => |s| == 1
    case Star(c) => c == '.' || forall i :: 0 <= i < |s| ==> s[i] == c
    case End => s == ""
  }

  function Concat(pieces: seq<string>): string {
    if pieces == [] then "" else pieces[0] + Concat(pieces[1..])
  }

  // text is one piece for each token and a rest, which is empty if the last token is End.
  ghost predicate Factors(ts: seq<Token>, text: string, pieces: seq<string>, rest: string) {
    && |pieces| == |ts|
    && text == Concat(pieces) + rest
    && (forall i :: 0 <= i < |ts| ==> Piece(ts[i], pieces[i]))
    && (|ts| > 0 && ts[|ts| - 1] == End ==> rest == "")
  }

  // The pattern matches at the beginning of text.
  ghost predicate Means(ts: seq<Token>, text: string) {
    exists pieces, rest :: Factors(ts, text, pieces, rest)
  }

  ghost predicate MeansFrom(ts: seq<Token>, text: string, k: nat)
    requires k <= |text|
  {
    Means(ts, text[k..])
  }

  // The pattern matches somewhere in text, or in front of it if it starts with '^'.
  ghost predicate Found(re: string, text: string) {
    if |re| > 0 && re[0] == '^' then Means(Tokens(re[1..]), text)
    else exists k :: 0 <= k <= |text| && MeansFrom(Tokens(re), text, k)
  }

  // ---- how the meaning of a pattern splits off its first token ----

  lemma MeansNil(text: string)
    ensures Means([], text)
  {
    assert Factors([], text, [], text);
  }

  lemma MeansEnd(text: string)
    ensures Means([End], text) <==> text == ""
  {
    if text == "" {
      assert Concat([""]) == "";
      assert Factors([End], text, [""], "");
    }
    if Means([End], text) {
      var pieces, rest :| Factors([End], text, pieces, rest);
      assert Piece([End][0], pieces[0]);
      assert pieces == [""] && Concat(pieces) == pieces[0] + Concat(pieces[1..]);
    }
  }

  lemma Prepend(t: Token, ts: seq<Token>, text: string, k: nat)
    requires k <= |text| && Piece(t, text[..k]) && Means(ts, text[k..]) && t != End
    ensures Means([t] + ts, text)
  {
    var pieces, rest :| Factors(ts, text[k..], pieces, rest);
    var all := [text[..k]] + pieces;
    assert Concat(all) == text[..k] + Concat(pieces) by { assert all[1..] == pieces; }
    assert text == text[..k] + text[k..];
    assert Factors([t] + ts, text, all, rest);
  }

  lemma Split(t: Token, ts: seq<Token>, text: string) returns (k: nat)
    requires Means([t] + ts, text) && t != End
    ensures k <= |text| && Piece(t, text[..k]) && Means(ts, text[k..])
  {
    var pieces, rest :| Factors([t] + ts, text, pieces, rest);
    k := |pieces[0]|;
    assert text == pieces[0] + (Concat(pieces[1..]) + rest);
    assert text[..k] == pieces[0] && text[k..] == Concat(pieces[1..]) + rest;
    assert Piece(([t] + ts)[0], pieces[0]);
    assert forall i :: 0 <= i < |ts| ==> ([t] + ts)[i + 1] == ts[i];
    assert Factors(ts, text[k..], pieces[1..], rest);
  }

  lemma MeansChar(t: Token, ts: seq<Token>, text: string)
    requires t.Lit? || t.Any?
    ensures Means([t] + ts, text) <==> text != "" && Piece(t, text[..1]) && Means(ts, text[1..])
  {
    if Means([t] + ts, text) {
      var k := Split(t, ts, text);
      assert k == 1;
    }
    if text != "" && Piece(t, text[..1]) && Means(ts, text[1..]) {
      Prepend(t, ts, text, 1);
    }
  }

  // The star takes k characters.
  ghost predicate StarTakes(c: char, ts: seq<Token>, text: string, k: nat) {
    k <= |text| && Piece(Star(c), text[..k]) && Means(ts, text[k..])
  }

  lemma MeansStar(c: char, ts: seq<Token>, text: string)
    ensures Means([Star(c)] + ts, text) <==> exists k: nat :: StarTakes(c, ts, text, k)
  {
    if Means([Star(c)] + ts, text) {
      var k := Split(Star(c), ts, text);
      assert StarTakes(c, ts, text, k);
    }
    if exists k: nat :: StarTakes(c, ts, text, k) {
      var k: nat :| StarTakes(c, ts, text, k);
      Prepend(Star(c), ts, text, k);
    }
  }

  // ---- the matcher ----

  method Match(re: string, text: string) returns (r: bool)
    ensures r <==> Found(re, text)
  {
    if |re| > 0 && re[0] == '^' {
      r := Matchhere(re[1..], text);
      return;
    }
    hide Means;
    var t := 0;
    while true   // the empty rest of the text is tried too
      invariant 0 <= t <= |text|
      invariant forall k :: 0 <= k < t ==> !MeansFrom(Tokens(re), text, k)
      decreases |text| - t
    {
      r := Matchhere(re, text[t..]);
      assert r <==> MeansFrom(Tokens(re), text, t);
      if r {
        return;
      }
      if t == |text| {
        break;
      }
      t := t + 1;
    }
    r := false;
  }

  // re from the start of text.
  method Matchhere(re: string, text: string) returns (r: bool)
    ensures r <==> Means(Tokens(re), text)
    decreases |re|, 0
  {
    hide Means;
    if |re| == 0 {
      MeansNil(text);
      return true;
    }
    if |re| >= 2 && re[1] == '*' {
      r := Matchstar(re[0], re[2..], text);
      return;
    }
    if re[0] == '$' && |re| == 1 {
      MeansEnd(text);
      return text == "";
    }
    MeansChar(if re[0] == '.' then Any else Lit(re[0]), Tokens(re[1..]), text);
    if text != "" && (re[0] == '.' || re[0] == text[0]) {
      r := Matchhere(re[1..], text[1..]);
      return;
    }
    return false;
  }

  // A star of c, then re, from the start of text.
  method Matchstar(c: char, re: string, text: string) returns (r: bool)
    ensures r <==> Means([Star(c)] + Tokens(re), text)
    decreases |re|, 1
  {
    hide Means;
    MeansStar(c, Tokens(re), text);
    var t := 0;
    while true   // the rest is tried before the first character is taken
      invariant 0 <= t <= |text| && Piece(Star(c), text[..t])
      invariant forall k: nat :: k < t ==> !StarTakes(c, Tokens(re), text, k)
      decreases |text| - t
    {
      r := Matchhere(re, text[t..]);
      assert r <==> StarTakes(c, Tokens(re), text, t);
      if r {
        return;
      }
      if t == |text| || !(text[t] == c || c == '.') {
        break;
      }
      t := t + 1;
    }
    NoMore(c, Tokens(re), text, t);
    r := false;
  }

  // The star cannot reach beyond the first character that differs.
  lemma NoMore(c: char, ts: seq<Token>, text: string, t: nat)
    requires t <= |text| && (t == |text| || !(text[t] == c || c == '.'))
    requires forall k: nat :: k <= t ==> !StarTakes(c, ts, text, k)
    ensures forall k: nat :: !StarTakes(c, ts, text, k)
  {
    hide Means;
    forall k: nat ensures !StarTakes(c, ts, text, k) {
      if t < k <= |text| {
        assert text[..k][t] == text[t];
      }
    }
  }

  // How odd patterns read: a '*' with no character before it, a '$' before the end and a '^' after the
  // beginning stand for themselves.
  lemma OddPatterns(re: string)
    requires re == "" || re[0] != '*'
    ensures Tokens("*" + re) == [Lit('*')] + Tokens(re)
    ensures re != "" ==> Tokens("$" + re) == [Lit('$')] + Tokens(re)
    ensures Tokens("^" + re) == [Lit('^')] + Tokens(re)
  {
    assert ("*" + re)[1..] == re && ("$" + re)[1..] == re && ("^" + re)[1..] == re;
  }

  // For every text: such a character must be there, and the rest matches what follows.
  lemma OddMeans(re: string, text: string)
    requires re == "" || re[0] != '*'
    ensures Means(Tokens("*" + re), text) <==> text != "" && text[0] == '*' && Means(Tokens(re), text[1..])
    ensures re != "" ==> (Means(Tokens("$" + re), text) <==> text != "" && text[0] == '$' && Means(Tokens(re), text[1..]))
    ensures Means(Tokens("^" + re), text) <==> text != "" && text[0] == '^' && Means(Tokens(re), text[1..])
  {
    OddPatterns(re);
    hide Means, Tokens;
    MeansChar(Lit('*'), Tokens(re), text);
    MeansChar(Lit('$'), Tokens(re), text);
    MeansChar(Lit('^'), Tokens(re), text);
  }
}
