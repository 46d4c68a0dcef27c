// The converse of LexerSound: a URL the lexer can send, placed in the input
// at the start of a fresh candidate and followed by an invalid byte or by the
// end of the input, is sent whole, and the lexer then goes on from a fresh
// candidate just past that byte (lib/lexer.go, lexText and the five states).

module LexerComplete {
  import opened ByteClass
  import opened LexerModel
  import opened LexerSound

  /** The byte at index `i` of a URL, part by part. */
  lemma RenderAt(u: Url, i: int)
    requires 0 <= i < |Render(u)|
    ensures var a := |u.scheme|;
      var b := a + 3;
      var c := b + |u.host|;
      var d := c + |u.path|;
      (i < a ==> Render(u)[i] == u.scheme[i]) &&
      (i == a ==> Render(u)[i] == Colon) &&
      (a < i < b ==> Render(u)[i] == Slash) &&
      (b <= i < c ==> Render(u)[i] == u.host[i - b]) &&
      (c <= i < d ==> Render(u)[i] == u.path[i - c]) &&
      (d <= i ==> Render(u)[i] == u.query[i - d])
  {
  }

  /**
   * Lexing is on track through the URL `u` placed at `s.start`: the bytes
   * read so far are a prefix of it, and the state is the one its parts call
   * for, with a host once the host has been entered.
   */
  predicate OnTrack(input: seq<byte>, s: Scan, u: Url)
  {
    CursorOk(input, s) && s.tokenType == TokenFullURL && WellFormed(u) &&
    s.start + |Render(u)| <= |input| && input[s.start..s.start + |Render(u)|] == Render(u) &&
    s.pos <= s.start + |Render(u)| &&
    var a := s.start + |u.scheme|;
    var b := a + 3;
    var c := b + |u.host|;
    var d := c + |u.path|;
    if s.pos <= a then s.stateType == StateScheme && s.schemeSep == []
    else if s.pos < b then s.stateType == StateSchemeSep && |s.schemeSep| == s.pos - a
    else if s.pos <= c then s.stateType == StateHost && (s.pos > b ==> s.host != [])
    else if s.pos <= d then s.stateType == StatePath && s.host != []
    else s.stateType == StateParams && s.host != []
  }

  /** The byte at the cursor is the URL's byte at the same offset. */
  lemma TrackByte(input: seq<byte>, s: Scan, u: Url)
    requires OnTrack(input, s, u) && s.pos < s.start + |Render(u)|
    ensures input[s.pos] == Render(u)[s.pos - s.start]
  {
    assert input[s.start..s.start + |Render(u)|][s.pos - s.start] == input[s.pos];
  }

  /** A pass whose byte the state accepts sends nothing and goes on from the state's new fields. */
  lemma AcceptStep(input: seq<byte>, s: Scan)
    requires CursorOk(input, s) && s.pos < |input|
    requires IsValid(input, Next(input, s).after, input[s.pos]).ok
    ensures LoopStep(input, s) == Go([], IsValid(input, Next(input, s).after, input[s.pos]).after)
  {
    ReadByte(input, s);
  }

  // ---------------------------------------------------------------------------
  // One byte of the URL, phase by phase
  // ---------------------------------------------------------------------------

  lemma TrackScheme(input: seq<byte>, s: Scan, u: Url)
    requires OnTrack(input, s, u) && s.pos < s.start + |u.scheme|
    ensures var v := IsValid(input, Next(input, s).after, input[s.pos]);
      v.ok && v.after.start == s.start && OnTrack(input, v.after, u)
  {
    TrackByte(input, s, u);
    RenderAt(u, s.pos - s.start);
    assert IsValidAll(u.scheme[s.pos - s.start]);
  }

  lemma TrackColon(input: seq<byte>, s: Scan, u: Url)
    requires OnTrack(input, s, u) && s.pos == s.start + |u.scheme|
    ensures var v := IsValid(input, Next(input, s).after, input[s.pos]);
      v.ok && v.after.start == s.start && OnTrack(input, v.after, u)
  {
    TrackByte(input, s, u);
    RenderAt(u, s.pos - s.start);
    SchemeRead(input, s, u);
    UntrimmedStart(input, Next(input, s).after);
  }

  /** The bytes before the colon are the URL's scheme. */
  lemma SchemeRead(input: seq<byte>, s: Scan, u: Url)
    requires OnTrack(input, s, u) && s.pos == s.start + |u.scheme|
    ensures input[s.start..s.pos] == u.scheme
  {
    assert input[s.start..s.pos] == input[s.start..s.start + |Render(u)|][..|u.scheme|];
  }

  /** The colon rule leaves the start of a scheme it would not trim where it is. */
  lemma UntrimmedStart(input: seq<byte>, s: Scan)
    requires 0 <= s.start < s.pos <= |input| && s.size == s.pos - s.start
    requires Untrimmable(input[s.start..s.pos - 1])
    ensures TrimmedStart(input, s) == s.start
  {
    var sch := input[s.start..s.pos - 1];
    assert |sch| >= 6 ==> sch[|sch| - 5..] == input[s.pos - 6..s.pos - 1];
    assert |sch| >= 5 ==> sch[|sch| - 4..] == input[s.pos - 5..s.pos - 1];
  }

  lemma TrackSlash(input: seq<byte>, s: Scan, u: Url)
    requires OnTrack(input, s, u)
    requires s.start + |u.scheme| < s.pos < s.start + |u.scheme| + 3
    ensures var v := IsValid(input, Next(input, s).after, input[s.pos]);
      v.ok && v.after.start == s.start && OnTrack(input, v.after, u)
  {
    TrackByte(input, s, u);
    RenderAt(u, s.pos - s.start);
  }

  lemma TrackHost(input: seq<byte>, s: Scan, u: Url)
    requires OnTrack(input, s, u)
    requires s.start + |u.scheme| + 3 <= s.pos < s.start + |u.scheme| + 3 + |u.host|
    ensures var v := IsValid(input, Next(input, s).after, input[s.pos]);
      v.ok && v.after.start == s.start && OnTrack(input, v.after, u)
  {
    TrackByte(input, s, u);
    RenderAt(u, s.pos - s.start);
    var b := s.start + |u.scheme| + 3;
    assert IsValidAll(u.host[s.pos - b]);
  }

  lemma TrackPath(input: seq<byte>, s: Scan, u: Url)
    requires OnTrack(input, s, u)
    requires var c := s.start + |u.scheme| + 3 + |u.host|;
      c <= s.pos < c + |u.path|
    ensures var v := IsValid(input, Next(input, s).after, input[s.pos]);
      v.ok && v.after.start == s.start && OnTrack(input, v.after, u)
  {
    TrackByte(input, s, u);
    RenderAt(u, s.pos - s.start);
    var c := s.start + |u.scheme| + 3 + |u.host|;
    assert IsValidAll(u.path[s.pos - c]) || u.path[s.pos - c] == Slash;
  }

  lemma TrackParams(input: seq<byte>, s: Scan, u: Url)
    requires OnTrack(input, s, u)
    requires s.start + |u.scheme| + 3 + |u.host| + |u.path| <= s.pos < s.start + |Render(u)|
    ensures var v := IsValid(input, Next(input, s).after, input[s.pos]);
      v.ok && v.after.start == s.start && OnTrack(input, v.after, u)
  {
    TrackByte(input, s, u);
    RenderAt(u, s.pos - s.start);
    var d := s.start + |u.scheme| + 3 + |u.host| + |u.path|;
    if s.pos == d {
      assert u.query[0] == Question || u.query[0] == At;
    } else {
      assert Class(u.query[s.pos - d]) != Inv;
    }
  }

  /** Every byte of the URL is accepted, and lexing stays on track. */
  lemma TrackStep(input: seq<byte>, s: Scan, u: Url)
    requires OnTrack(input, s, u) && s.pos < s.start + |Render(u)|
    ensures LoopStep(input, s).Go? && LoopStep(input, s).spans == []
    ensures LoopStep(input, s).next.start == s.start && OnTrack(input, LoopStep(input, s).next, u)
  {
    var a := s.start + |u.scheme|;
    var b := a + 3;
    var c := b + |u.host|;
    var d := c + |u.path|;
    if s.pos < a {
      TrackScheme(input, s, u);
    } else if s.pos == a {
      TrackColon(input, s, u);
    } else if s.pos < b {
      TrackSlash(input, s, u);
    } else if s.pos < c {
      TrackHost(input, s, u);
    } else if s.pos < d {
      TrackPath(input, s, u);
    } else {
      TrackParams(input, s, u);
    }
    AcceptStep(input, s);
  }

  // ---------------------------------------------------------------------------
  // The end of the URL
  // ---------------------------------------------------------------------------

  /**
   * lexText from `s` sends `span` first; then it stops at the end of the
   * input or goes on as from a fresh candidate just past the byte that ended
   * the span.
   */
  ghost predicate SendsFirst(input: seq<byte>, s: Scan, span: Span)
    requires CursorOk(input, s)
  {
    if span.end == |input| then LexText(input, s) == [span]
    else exists t :: CursorOk(input, t) && Fresh(t) && t.start == t.pos == span.end + 1 &&
                     LexText(input, s) == [span] + LexText(input, t)
  }

  /**
   * A candidate in the host, path or parameters state with a host, followed
   * by an invalid byte or by the end of the input, is sent as it stands.
   */
  lemma EndPass(input: seq<byte>, s: Scan)
    requires CursorOk(input, s) && s.pos <= |input|
    requires s.tokenType == TokenFullURL && s.host != [] && s.size >= 1
    requires s.stateType == StateHost || s.stateType == StatePath || s.stateType == StateParams
    requires s.pos == |input| || Class(input[s.pos]) == Inv
    ensures SendsFirst(input, s, Span(TokenFullURL, s.start, s.pos))
  {
    if s.pos < |input| {
      ReadByte(input, s);
      assert !Accepts(input, s);
      PassReject(input, s);
      var st := LoopStep(input, s);
      assert LexText(input, s) == [Span(TokenFullURL, s.start, s.pos)] + LexText(input, st.next);
    } else {
      PassEnd(input, s);
    }
  }

  /** SendsFirst depends only on what lexText sends. */
  lemma SendsFirstSame(input: seq<byte>, s: Scan, t: Scan, span: Span)
    requires CursorOk(input, s) && CursorOk(input, t) && LexText(input, s) == LexText(input, t)
    requires SendsFirst(input, t, span)
    ensures SendsFirst(input, s, span)
  {
    if span.end != |input| {
      var w :| CursorOk(input, w) && Fresh(w) && w.start == w.pos == span.end + 1 &&
                LexText(input, t) == [span] + LexText(input, w);
      assert LexText(input, s) == [span] + LexText(input, w);
    }
  }

  /** One byte of the URL read: nothing sent, still on track, one byte further. */
  lemma TrackAdvance(input: seq<byte>, s: Scan, u: Url) returns (t: Scan)
    requires OnTrack(input, s, u) && s.pos < s.start + |Render(u)|
    ensures OnTrack(input, t, u) && t.start == s.start && t.pos > s.pos
    ensures forall span :: SendsFirst(input, t, span) ==> SendsFirst(input, s, span)
  {
    TrackStep(input, s, u);
    t := LoopStep(input, s).next;
    forall span | SendsFirst(input, t, span)
      ensures SendsFirst(input, s, span)
    {
      SendsFirstSame(input, s, t, span);
    }
  }

  /** From on track to the end of the URL, nothing is sent until the URL itself. */
  lemma {:induction false} TrackToEnd(input: seq<byte>, s: Scan, u: Url)
    requires OnTrack(input, s, u)
    requires var k := s.start + |Render(u)|; k == |input| || Class(input[k]) == Inv
    ensures SendsFirst(input, s, Span(TokenFullURL, s.start, s.start + |Render(u)|))
    decreases |Render(u)| - (s.pos - s.start)
  {
    if s.pos < s.start + |Render(u)| {
      var t := TrackAdvance(input, s, u);
      TrackToEnd(input, t, u);
    } else {
      EndPass(input, s);
    }
  }

  /**
   * A URL the lexer can send, at the start of a fresh candidate and followed
   * by an invalid byte or by the end of the input, is sent whole: the scheme
   * is read, the colon leaves the start where it is (the scheme ends in no
   * longer `https` or `http` word), the two slashes enter the host, and the
   * invalid byte or the end of the input closes the candidate.
   */
  lemma LexUrl(input: seq<byte>, s: Scan, u: Url)
    requires CursorOk(input, s) && Fresh(s) && s.start == s.pos
    requires WellFormed(u)
    requires s.pos + |Render(u)| <= |input| && input[s.pos..s.pos + |Render(u)|] == Render(u)
    requires s.pos + |Render(u)| == |input| || Class(input[s.pos + |Render(u)|]) == Inv
    ensures SendsFirst(input, s, Span(TokenFullURL, s.pos, s.pos + |Render(u)|))
  {
    assert OnTrack(input, s, u);
    TrackToEnd(input, s, u);
  }

  /**
   * LexUrl for a URL followed by an invalid byte: the URL is sent, and the
   * lexer goes on from the fresh candidate `t` just past that byte.
   */
  lemma LexUrlThen(input: seq<byte>, s: Scan, u: Url) returns (t: Scan)
    requires CursorOk(input, s) && Fresh(s) && s.start == s.pos
    requires WellFormed(u)
    requires s.pos + |Render(u)| < |input| && input[s.pos..s.pos + |Render(u)|] == Render(u)
    requires Class(input[s.pos + |Render(u)|]) == Inv
    ensures CursorOk(input, t) && Fresh(t) && t.start == t.pos == s.pos + |Render(u)| + 1
    ensures LexText(input, s) == [Span(TokenFullURL, s.pos, s.pos + |Render(u)|)] + LexText(input, t)
  {
    LexUrl(input, s, u);
    t :| CursorOk(input, t) && Fresh(t) && t.start == t.pos == s.pos + |Render(u)| + 1 &&
         LexText(input, s) == [Span(TokenFullURL, s.pos, s.pos + |Render(u)|)] + LexText(input, t);
  }

  /** A fresh candidate at the end of the input sends nothing. */
  lemma FreshAtEnd(input: seq<byte>, s: Scan)
    requires CursorOk(input, s) && Fresh(s) && s.start == s.pos == |input|
    ensures LexText(input, s) == []
  {
    LexTextStop(input, s);
  }
}
