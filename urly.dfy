// lib/urly.go: ExtractURL runs the lexer over its input and writes every
// token it receives followed by a line feed.  Beside the method, the
// properties of that output: one line feed per token, the lines read back
// by splitting at line feeds, every line a URL, and the output unchanged by
// a second extraction.

module Urly {
  import opened ByteClass
  import opened LexerModel
  import opened LexerSound
  import opened LexerComplete
  import Lexer

  datatype Option<T> = None | Some(value: T)

  /** The value of every token, in order. */
  function TokenValues(toks: seq<Token>): (vs: seq<seq<byte>>)
    ensures |vs| == |toks|
    ensures forall i :: 0 <= i < |toks| ==> vs[i] == toks[i].value
  {
    if toks == [] then [] else [toks[0].value] + TokenValues(toks[1..])
  }

  /**
   * Each value followed by a line feed (byte 10), in order: empty exactly
   * when there are no values, and otherwise ending in a line feed.
   */
  function Lines(vs: seq<seq<byte>>): (out: seq<byte>)
    ensures out == [] <==> vs == []
    ensures vs != [] ==> out[|out| - 1] == LF
  {
    if vs == [] then [] else vs[0] + [LF] + Lines(vs[1..])
  }

  /** The values of the tokens the lexer sends for `input`. */
  function Urls(input: seq<byte>): seq<seq<byte>>
  {
    TokenValues(Values(input, Lex(input)))
  }

  lemma LinesSnoc(vs: seq<seq<byte>>, i: int)
    requires 0 <= i < |vs|
    ensures Lines(vs[..i + 1]) == Lines(vs[..i]) + vs[i] + [LF]
  {
    assert vs[..i + 1] == vs[..i] + [vs[i]];
    LinesAppend(vs[..i], vs[i]);
  }

  lemma {:induction false} LinesAppend(vs: seq<seq<byte>>, v: seq<byte>)
    ensures Lines(vs + [v]) == Lines(vs) + v + [LF]
    decreases |vs|
  {
    if vs == [] {
      assert (vs + [v])[1..] == [];
    } else {
      assert (vs + [v])[1..] == vs[1..] + [v];
      LinesAppend(vs[1..], v);
    }
  }

  /**
   * ExtractURL: the lexer's token values, each followed by a line feed, in
   * the order the lexer sends them; the error is always nil.
   */
  method ExtractURL(input: seq<byte>) returns (res: seq<byte>, err: Option<string>)
    ensures res == Lines(Urls(input))
    ensures Lex(input) == [] ==> res == []
    ensures err == None
  {
    var lex := new Lexer.Lexer.NewLexer(input);
    res := [];
    var toks := lex.tokens;
    ghost var vs := Urls(input);
    for i := 0 to |toks|
      invariant |vs| == |toks| && forall j :: i <= j < |toks| ==> vs[j] == toks[j].value
      invariant res == Lines(vs[..i])
    {
      LinesSnoc(vs, i);
      res := res + toks[i].value + [LF];
    }
    assert vs[..|toks|] == vs;
    err := None;
  }

  // ---------------------------------------------------------------------------
  // Line feeds
  // ---------------------------------------------------------------------------

  /** Values without line feeds give exactly one line feed each. */
  lemma {:induction false} LinesCount(vs: seq<seq<byte>>)
    requires forall i :: 0 <= i < |vs| ==> LF !in vs[i]
    ensures multiset(Lines(vs))[LF] == |vs|
    decreases |vs|
  {
    if vs != [] {
      LinesCount(vs[1..]);
      assert multiset(vs[0])[LF] == 0;
      assert multiset(Lines(vs)) == multiset(vs[0]) + multiset([LF]) + multiset(Lines(vs[1..]));
    }
  }

  /** Every token the lexer sends is a URL, so it holds no invalid byte (no line feed, no space). */
  lemma UrlsAreUrls(input: seq<byte>)
    ensures forall i :: 0 <= i < |Urls(input)| ==>
      IsUrl(Urls(input)[i]) && NoInvalid(Urls(input)[i]) && LF !in Urls(input)[i]
  {
    LexSound(input);
    var us := Urls(input);
    forall i | 0 <= i < |us|
      ensures IsUrl(us[i]) && NoInvalid(us[i]) && LF !in us[i]
    {
      UrlHasNoInvalidByte(us[i]);
    }
  }

  /** The output holds one line feed per token. */
  lemma OutputCountsTokens(input: seq<byte>)
    ensures multiset(Lines(Urls(input)))[LF] == |Lex(input)|
  {
    UrlsAreUrls(input);
    LinesCount(Urls(input));
  }

  // ---------------------------------------------------------------------------
  // Reading the output back: bytes.Split and bytes.Join at the line feed
  // ---------------------------------------------------------------------------

  /** bytes.Split(s, "\n"): the pieces between line feeds; an empty input gives one empty piece. */
  function Split(s: seq<byte>): (pieces: seq<seq<byte>>)
    ensures |pieces| >= 1
    ensures forall i :: 0 <= i < |pieces| ==> LF !in pieces[i]
  {
    if s == [] then [[]]
    else
      var rest := Split(s[1..]);
      if s[0] == LF then [[]] + rest
      else [[s[0]] + rest[0]] + rest[1..]
  }

  /** bytes.Join(pieces, "\n"): the pieces with a line feed between each two. */
  function Join(pieces: seq<seq<byte>>): seq<byte>
    requires |pieces| >= 1
  {
    if |pieces| == 1 then pieces[0] else pieces[0] + [LF] + Join(pieces[1..])
  }

  lemma {:induction false} SplitPiece(v: seq<byte>, w: seq<byte>)
    requires LF !in v
    ensures Split(v + [LF] + w) == [v] + Split(w)
    ensures Split(v) == [v]
    decreases |v|
  {
    if v != [] {
      assert (v + [LF] + w)[1..] == v[1..] + [LF] + w;
      SplitPiece(v[1..], w);
      assert [v[0]] + v[1..] == v;
    } else {
      assert ([LF] + w)[1..] == w;
    }
  }

  /** Splitting joined pieces that hold no line feed gives back the pieces. */
  lemma {:induction false} SplitJoin(pieces: seq<seq<byte>>)
    requires |pieces| >= 1
    requires forall i :: 0 <= i < |pieces| ==> LF !in pieces[i]
    ensures Split(Join(pieces)) == pieces
    decreases |pieces|
  {
    SplitPiece(pieces[0], []);
    if |pieces| > 1 {
      SplitPiece(pieces[0], Join(pieces[1..]));
      SplitJoin(pieces[1..]);
    }
  }

  /** Newline-terminated lines are the lines joined with one more, empty, line. */
  lemma {:induction false} LinesJoin(vs: seq<seq<byte>>)
    ensures Lines(vs) == Join(vs + [[]])
    decreases |vs|
  {
    if vs != [] {
      assert (vs + [[]])[1..] == vs[1..] + [[]];
      LinesJoin(vs[1..]);
    }
  }

  /** Splitting the output at line feeds gives the token values in order, then one empty piece. */
  lemma SplitOutput(input: seq<byte>)
    ensures Split(Lines(Urls(input))) == Urls(input) + [[]]
  {
    UrlsAreUrls(input);
    LinesJoin(Urls(input));
    SplitJoin(Urls(input) + [[]]);
  }

  // ---------------------------------------------------------------------------
  // Extracting from an extraction
  // ---------------------------------------------------------------------------

  /** The first line of newline-terminated values placed at `p`, and where the rest starts. */
  lemma LinesHead(input: seq<byte>, p: int, vs: seq<seq<byte>>)
    requires 0 <= p <= |input| && input[p..] == Lines(vs) && vs != []
    ensures p + |vs[0]| < |input|
    ensures input[p..p + |vs[0]|] == vs[0] && input[p + |vs[0]|] == LF
    ensures input[p + |vs[0]| + 1..] == Lines(vs[1..])
  {
    var v := vs[0];
    assert input[p..] == v + [LF] + Lines(vs[1..]);
    assert input[p..p + |v|] == input[p..][..|v|];
    assert input[p + |v|] == input[p..][|v|];
    assert input[p + |v| + 1..] == input[p..][|v| + 1..];
  }

  lemma HeadTail<T>(s: seq<T>)
    requires s != []
    ensures [s[0]] + s[1..] == s
  {
  }

  /** The values of one span followed by more spans. */
  lemma ValuesCons(input: seq<byte>, sp: Span, rest: seq<Span>)
    requires 0 <= sp.start <= sp.end <= |input|
    requires forall i :: 0 <= i < |rest| ==> 0 <= rest[i].start <= rest[i].end <= |input|
    ensures TokenValues(Values(input, [sp] + rest)) ==
      [input[sp.start..sp.end]] + TokenValues(Values(input, rest))
  {
    ValuesAppend(input, [sp], rest);
    var got := TokenValues(Values(input, [sp] + rest));
    var want := [input[sp.start..sp.end]] + TokenValues(Values(input, rest));
    assert forall i :: 0 <= i < |got| ==> got[i] == want[i];
  }

  /** The first of newline-terminated URLs is sent, and the lexer goes on from a fresh candidate at the next line. */
  lemma LexFirstLine(input: seq<byte>, t: Scan, vs: seq<seq<byte>>) returns (t2: Scan)
    requires CursorOk(input, t) && Fresh(t) && t.start == t.pos <= |input|
    requires input[t.pos..] == Lines(vs) && vs != [] && IsUrl(vs[0])
    ensures CursorOk(input, t2) && Fresh(t2) && t2.start == t2.pos <= |input|
    ensures input[t2.pos..] == Lines(vs[1..])
    ensures TokenValues(Values(input, LexText(input, t))) ==
      [vs[0]] + TokenValues(Values(input, LexText(input, t2)))
  {
    LinesHead(input, t.pos, vs);
    t2 := LexUrlLine(input, t, vs[0]);
    assert t2.pos == t.pos + |vs[0]| + 1;
    ValuesCons(input, Span(TokenFullURL, t.pos, t.pos + |vs[0]|), LexText(input, t2));
  }

  /** A URL followed by a line feed is sent whole, and a fresh candidate starts after the line feed. */
  lemma LexUrlLine(input: seq<byte>, t: Scan, v: seq<byte>) returns (t2: Scan)
    requires CursorOk(input, t) && Fresh(t) && t.start == t.pos
    requires IsUrl(v) && t.pos + |v| < |input|
    requires input[t.pos..t.pos + |v|] == v && input[t.pos + |v|] == LF
    ensures CursorOk(input, t2) && Fresh(t2) && t2.start == t2.pos == t.pos + |v| + 1
    ensures LexText(input, t) == [Span(TokenFullURL, t.pos, t.pos + |v|)] + LexText(input, t2)
  {
    var u :| WellFormed(u) && Render(u) == v;
    LineFeedAndSpaceInvalid();
    t2 := LexUrlThen(input, t, u);
  }

  /**
   * From a fresh candidate at the start of newline-terminated URLs, the
   * lexer sends exactly those URLs.
   */
  lemma {:induction false} LexLinesFrom(input: seq<byte>, t: Scan, vs: seq<seq<byte>>)
    requires CursorOk(input, t) && Fresh(t) && t.start == t.pos <= |input|
    requires input[t.pos..] == Lines(vs)
    requires forall i :: 0 <= i < |vs| ==> IsUrl(vs[i])
    ensures TokenValues(Values(input, LexText(input, t))) == vs
    decreases |vs|
  {
    if vs == [] {
      FreshAtEnd(input, t);
    } else {
      var t2 := LexFirstLine(input, t, vs);
      LexLinesFrom(input, t2, vs[1..]);
      HeadTail(vs);
    }
  }

  /** Newline-terminated URLs are their own extraction. */
  lemma LinesFixpoint(vs: seq<seq<byte>>)
    requires forall i :: 0 <= i < |vs| ==> IsUrl(vs[i])
    ensures Urls(Lines(vs)) == vs
    ensures Lines(Urls(Lines(vs))) == Lines(vs)
  {
    assert Lines(vs)[0..] == Lines(vs);
    LexLinesFrom(Lines(vs), Initial, vs);
  }

  /** Extracting from ExtractURL's output changes nothing: the output is a fixpoint. */
  lemma ExtractIdempotent(input: seq<byte>)
    ensures Urls(Lines(Urls(input))) == Urls(input)
    ensures Lines(Urls(Lines(Urls(input)))) == Lines(Urls(input))
  {
    UrlsAreUrls(input);
    LinesFixpoint(Urls(input));
  }
}
