// What every token the lexer sends looks like: a slice of the input, in
// order, never overlapping the next one, and always of the form
//   scheme "://" host [ "/" path [ ("?" | "@") params ] ]
// with a non-empty host (lib/lexer.go, emit and the five process*Valid states).

module LexerSound {
  import opened ByteClass
  import opened LexerModel

  /** The three bytes that separate a scheme from the host. */
  const SchemeSepBytes: seq<byte> := [Colon, Slash, Slash]

  /** The parts of a recognised URL; `path` starts with its slash, `query` with its `?` or `@`. */
  datatype Url = Url(scheme: seq<byte>, host: seq<byte>, path: seq<byte>, query: seq<byte>)

  /** The bytes of a URL, parts in order. */
  function Render(u: Url): seq<byte>
  {
    u.scheme + SchemeSepBytes + u.host + u.path + u.query
  }

  predicate AllValid(s: seq<byte>)
  {
    forall i :: 0 <= i < |s| ==> IsValidAll(s[i])
  }

  /**
   * A scheme the colon rule leaves as it is: it has no bytes before a
   * trailing `https` or `http` word (a bare `https` or `http` is fine).
   */
  predicate Untrimmable(s: seq<byte>)
  {
    !(|s| >= 6 && s[|s| - 5..] == Https) && !(|s| >= 5 && s[|s| - 4..] == Http)
  }

  /** Bytes the path state keeps in the path: valid bytes and slashes. */
  predicate PathBytes(p: seq<byte>)
  {
    forall i :: 0 <= i < |p| ==> IsValidAll(p[i]) || p[i] == Slash
  }

  /** What the parameters state reads: `?` or `@`, then any bytes that are not invalid. */
  predicate QueryBytes(q: seq<byte>)
  {
    q != [] ==> (q[0] == Question || q[0] == At) && forall i :: 1 <= i < |q| ==> Class(q[i]) != Inv
  }

  /** The parts the states can have accumulated (the host may still be empty). */
  predicate Shaped(u: Url)
  {
    AllValid(u.scheme) && Untrimmable(u.scheme) && AllValid(u.host) &&
    (u.path != [] ==> u.path[0] == Slash) && PathBytes(u.path) &&
    (u.path == [] ==> u.query == []) && QueryBytes(u.query)
  }

  /** The parts of a token the lexer sends: as Shaped, with a host. */
  predicate WellFormed(u: Url)
  {
    Shaped(u) && u.host != []
  }

  /** A byte string is a URL as the lexer recognises one. */
  ghost predicate IsUrl(t: seq<byte>)
  {
    exists u :: WellFormed(u) && Render(u) == t
  }

  /** No byte of the sequence is of class inv. */
  predicate NoInvalid(s: seq<byte>)
  {
    forall i :: 0 <= i < |s| ==> Class(s[i]) != Inv
  }

  lemma NoInvalidAppend(a: seq<byte>, b: seq<byte>)
    requires NoInvalid(a) && NoInvalid(b)
    ensures NoInvalid(a + b)
  {
    var ab := a + b;
    forall i | 0 <= i < |ab|
      ensures Class(ab[i]) != Inv
    {
      if i >= |a| {
        assert ab[i] == b[i - |a|];
      }
    }
  }

  /**
   * A URL holds no byte the table marks invalid, so in particular no line
   * feed and no space: every state accepts only valid bytes, the colon, the
   * slash, `?`, `@` or (in the parameters) bytes that are not invalid.
   */
  lemma UrlHasNoInvalidByte(t: seq<byte>)
    requires IsUrl(t)
    ensures NoInvalid(t)
    ensures LF !in t && Space !in t
  {
    var u :| WellFormed(u) && Render(u) == t;
    assert NoInvalid(SchemeSepBytes);
    NoInvalidAppend(u.scheme, SchemeSepBytes);
    NoInvalidAppend(u.scheme + SchemeSepBytes, u.host);
    NoInvalidAppend(u.scheme + SchemeSepBytes + u.host, u.path);
    if u.query != [] {
      assert Class(u.query[0]) == Sp8;
    }
    NoInvalidAppend(u.scheme + SchemeSepBytes + u.host + u.path, u.query);
    if LF in t || Space in t {
      var i :| 0 <= i < |t| && (t[i] == LF || t[i] == Space);
      LineFeedAndSpaceInvalid();
      LookupClass(t[i] as int);
      assert false;
    }
  }

  // ---------------------------------------------------------------------------
  // The candidate invariant
  // ---------------------------------------------------------------------------

  /** How the bytes read so far, `seg == input[start:pos]`, fit the state and its accumulators. */
  ghost predicate SegmentFits(seg: seq<byte>, s: Scan)
  {
    match s.stateType
    case StateScheme =>
      AllValid(seg) && s.schemeSep == [] && s.host == [] && s.path == []
    case StateSchemeSep =>
      s.host == [] && s.path == [] &&
      (s.schemeSep == [Colon] || s.schemeSep == [Colon, Slash]) &&
      var k := |seg| - |s.schemeSep|;
      0 <= k && seg[k..] == s.schemeSep && AllValid(seg[..k]) && Untrimmable(seg[..k])
    case _ =>
      exists u :: Render(u) == seg && Shaped(u) && u.host == s.host && u.path == s.path &&
        PhaseFits(u, s.stateType)
  }

  /** Which parts exist in the host, path and parameters states. */
  predicate PhaseFits(u: Url, st: StateType)
  {
    match st
    case StateHost => u.path == [] && u.query == []
    case StatePath => u.path != [] && u.query == []
    case StateParams => u.path != [] && u.query != []
    case _ => false
  }

  /** The invariant of lexText's loop head. */
  ghost predicate Candidate(input: seq<byte>, s: Scan)
  {
    CursorOk(input, s) && s.tokenType == TokenFullURL &&
    (s.pos == |input| + 1 ==> Fresh(s)) &&
    (s.pos <= |input| ==> SegmentFits(input[s.start..s.pos], s))
  }

  lemma FreshIsCandidate(input: seq<byte>, s: Scan)
    requires Fresh(s) && 0 <= s.start == s.pos <= |input| + 1
    ensures Candidate(input, s)
  {
    if s.pos <= |input| {
      assert input[s.start..s.pos] == [];
    }
  }

  lemma AllValidAppend(a: seq<byte>, b: byte)
    requires AllValid(a) && IsValidAll(b)
    ensures AllValid(a + [b])
  {
    assert forall i :: 0 <= i < |a| ==> (a + [b])[i] == a[i];
  }

  lemma RenderAppendHost(u: Url, b: byte)
    requires u.path == [] && u.query == []
    ensures Render(u.(host := u.host + [b])) == Render(u) + [b]
  {
  }

  lemma RenderAppendPath(u: Url, b: byte)
    requires u.query == []
    ensures Render(u.(path := u.path + [b])) == Render(u) + [b]
  {
  }

  lemma RenderAppendQuery(u: Url, b: byte)
    ensures Render(u.(query := u.query + [b])) == Render(u) + [b]
  {
  }

  /**
   * The bytes before the colon, once the colon rule has moved the start, are
   * valid and form a scheme the rule would not trim again.
   */
  lemma ColonScheme(input: seq<byte>, s: Scan)
    requires 0 <= s.start < s.pos <= |input| && s.size == s.pos - s.start
    requires AllValid(input[s.start..s.pos - 1])
    ensures var t := TrimmedStart(input, s);
      s.start <= t < s.pos && AllValid(input[t..s.pos - 1]) && Untrimmable(input[t..s.pos - 1])
  {
    if TrimmedStart(input, s) != s.start {
      HttpWordsAreSchemes();
    } else {
      KeptScheme(input, s);
    }
  }

  /** `https` and `http` are valid schemes that the colon rule leaves as they are. */
  lemma HttpWordsAreSchemes()
    ensures AllValid(Https) && Untrimmable(Https)
    ensures AllValid(Http) && Untrimmable(Http)
  {
  }

  /** A scheme the colon rule did not move the start of has no trailing `https` or `http` word after other bytes. */
  lemma KeptScheme(input: seq<byte>, s: Scan)
    requires 0 <= s.start < s.pos <= |input| && s.size == s.pos - s.start
    requires TrimmedStart(input, s) == s.start
    ensures Untrimmable(input[s.start..s.pos - 1])
  {
    var sch := input[s.start..s.pos - 1];
    assert !(s.size > 6 && input[s.pos - 6..s.pos - 1] == Https);
    assert !(s.size > 5 && input[s.pos - 5..s.pos - 1] == Http);
    assert |sch| >= 6 ==> sch[|sch| - 5..] == input[s.pos - 6..s.pos - 1];
    assert |sch| >= 5 ==> sch[|sch| - 4..] == input[s.pos - 5..s.pos - 1];
  }

  /** The byte Next reads, as lexText converts it. */
  lemma AcceptScheme(input: seq<byte>, s: Scan, r: byte)
    requires Candidate(input, s) && s.pos < |input| && s.stateType == StateScheme && r == input[s.pos]
    ensures var v := IsValid(input, Next(input, s).after, r); v.ok ==> Candidate(input, v.after)
  {
    var a := Next(input, s).after;
    var v := IsValid(input, a, r);
    if v.ok {
      var seg := input[s.start..s.pos];
      var seg' := input[v.after.start..v.after.pos];
      if r == Colon {
        ColonScheme(input, a);
        var t := TrimmedStart(input, a);
        assert seg' == input[t..s.pos] + [Colon];
        assert seg'[..|seg'| - 1] == input[t..s.pos];
      } else {
        assert seg' == seg + [r];
        AllValidAppend(seg, r);
      }
    }
  }

  lemma AcceptSchemeSep(input: seq<byte>, s: Scan, r: byte)
    requires Candidate(input, s) && s.pos < |input| && s.stateType == StateSchemeSep && r == input[s.pos]
    ensures var v := IsValid(input, Next(input, s).after, r); v.ok ==> Candidate(input, v.after)
  {
    var a := Next(input, s).after;
    var v := IsValid(input, a, r);
    if v.ok {
      var seg := input[s.start..s.pos];
      assert input[v.after.start..v.after.pos] == seg + [Slash];
      assert SegmentFits(seg, a);
      SepSlash(seg, a);
    }
  }

  /** A slash read in the separator state keeps the bytes read fitting the new state. */
  lemma SepSlash(seg: seq<byte>, s: Scan)
    requires s.stateType == StateSchemeSep && SegmentFits(seg, s)
    ensures SegmentFits(seg + [Slash], ProcessSchemeSepValid(s, Slash).after)
  {
    if |s.schemeSep| == 1 {
      SepFirstSlash(seg, s);
    } else {
      SepSecondSlash(seg, s);
    }
  }

  lemma SepFirstSlash(seg: seq<byte>, s: Scan)
    requires s.stateType == StateSchemeSep && SegmentFits(seg, s) && |s.schemeSep| == 1
    ensures SegmentFits(seg + [Slash], s.(schemeSep := s.schemeSep + [Slash]))
  {
    var k := |seg| - 1;
    var seg' := seg + [Slash];
    assert seg'[k..] == seg[k..] + [Slash];
    assert seg'[..k] == seg[..k];
  }

  lemma SepSecondSlash(seg: seq<byte>, s: Scan)
    requires s.stateType == StateSchemeSep && SegmentFits(seg, s) && |s.schemeSep| == 2
    ensures SegmentFits(seg + [Slash],
      s.(schemeSep := s.schemeSep + [Slash], stateType := StateHost, tokenType := TokenFullURL))
  {
    var k := |seg| - 2;
    var u := Url(seg[..k], [], [], []);
    assert seg == seg[..k] + seg[k..];
    assert Render(u) == seg + [Slash];
    assert PhaseFits(u, StateHost);
  }

  lemma AcceptHost(input: seq<byte>, s: Scan, r: byte)
    requires Candidate(input, s) && s.pos < |input| && s.stateType == StateHost && r == input[s.pos]
    ensures var v := IsValid(input, Next(input, s).after, r); v.ok ==> Candidate(input, v.after)
  {
    var a := Next(input, s).after;
    var v := IsValid(input, a, r);
    if v.ok {
      var seg := input[s.start..s.pos];
      var seg' := input[v.after.start..v.after.pos];
      var u :| Render(u) == seg && Shaped(u) && u.host == s.host && u.path == s.path &&
        PhaseFits(u, s.stateType);
      assert seg' == seg + [r];
      if r == Slash {
        var u' := u.(path := u.path + [r]);
        RenderAppendPath(u, r);
        assert Shaped(u') && PhaseFits(u', v.after.stateType);
      } else {
        var u' := u.(host := u.host + [r]);
        RenderAppendHost(u, r);
        AllValidAppend(u.host, r);
        assert Shaped(u') && PhaseFits(u', v.after.stateType);
      }
    }
  }

  lemma AcceptPath(input: seq<byte>, s: Scan, r: byte)
    requires Candidate(input, s) && s.pos < |input| && s.stateType == StatePath && r == input[s.pos]
    ensures var v := IsValid(input, Next(input, s).after, r); v.ok ==> Candidate(input, v.after)
  {
    var a := Next(input, s).after;
    var v := IsValid(input, a, r);
    if v.ok {
      var seg := input[s.start..s.pos];
      var seg' := input[v.after.start..v.after.pos];
      var u :| Render(u) == seg && Shaped(u) && u.host == s.host && u.path == s.path &&
        PhaseFits(u, s.stateType);
      assert seg' == seg + [r];
      if r == Question || r == At {
        var u' := u.(query := u.query + [r]);
        RenderAppendQuery(u, r);
        assert Shaped(u') && PhaseFits(u', v.after.stateType);
      } else {
        var u' := u.(path := u.path + [r]);
        RenderAppendPath(u, r);
        assert Shaped(u') && PhaseFits(u', v.after.stateType);
      }
    }
  }

  lemma AcceptParams(input: seq<byte>, s: Scan, r: byte)
    requires Candidate(input, s) && s.pos < |input| && s.stateType == StateParams && r == input[s.pos]
    ensures var v := IsValid(input, Next(input, s).after, r); v.ok ==> Candidate(input, v.after)
  {
    var a := Next(input, s).after;
    var v := IsValid(input, a, r);
    if v.ok {
      var seg := input[s.start..s.pos];
      var seg' := input[v.after.start..v.after.pos];
      var u :| Render(u) == seg && Shaped(u) && u.host == s.host && u.path == s.path &&
        PhaseFits(u, s.stateType);
      assert seg' == seg + [r];
      var u' := u.(query := u.query + [r]);
      RenderAppendQuery(u, r);
      assert Shaped(u') && PhaseFits(u', v.after.stateType);
    }
  }

  /** A byte accepted by the current state keeps the candidate invariant. */
  lemma AcceptKeepsCandidate(input: seq<byte>, s: Scan)
    requires Candidate(input, s) && s.pos < |input|
    ensures var v := IsValid(input, Next(input, s).after, input[s.pos]);
      v.ok ==> Candidate(input, v.after)
  {
    var r := input[s.pos];
    match s.stateType
    case StateScheme => AcceptScheme(input, s, r);
    case StateSchemeSep => AcceptSchemeSep(input, s, r);
    case StateHost => AcceptHost(input, s, r);
    case StatePath => AcceptPath(input, s, r);
    case StateParams => AcceptParams(input, s, r);
  }

  /** A candidate with a host is a URL. */
  lemma EmitSound(input: seq<byte>, s: Scan)
    requires Candidate(input, s) && s.pos <= |input| && s.host != []
    ensures IsUrl(input[s.start..s.pos])
  {
    var u :| Render(u) == input[s.start..s.pos] && Shaped(u) && u.host == s.host && u.path == s.path &&
      PhaseFits(u, s.stateType);
    assert WellFormed(u);
  }

  /**
   * Spans that lie in `input[lo:]`, each a non-empty slice that is a URL, each
   * ending before the next begins.
   */
  ghost predicate SoundSpans(input: seq<byte>, spans: seq<Span>, lo: int)
  {
    0 <= lo &&
    (forall i :: 0 <= i < |spans| ==>
      lo <= spans[i].start < spans[i].end <= |input| && spans[i].tokenType == TokenFullURL &&
      IsUrl(input[spans[i].start..spans[i].end])) &&
    (forall i, j :: 0 <= i < j < |spans| ==> spans[i].end < spans[j].start)
  }

  lemma SoundSpansCons(input: seq<byte>, first: seq<Span>, rest: seq<Span>, lo: int, mid: int)
    requires SoundSpans(input, first, lo) && SoundSpans(input, rest, mid)
    requires forall i :: 0 <= i < |first| ==> first[i].end < mid
    requires lo <= mid
    ensures SoundSpans(input, first + rest, lo)
  {
    var all := first + rest;
    forall i, j | 0 <= i < j < |all| ensures all[i].end < all[j].start {
      if j < |first| {
      } else if i < |first| {
        assert all[j] == rest[j - |first|];
      } else {
        assert all[i] == rest[i - |first|] && all[j] == rest[j - |first|];
      }
    }
  }

  /** One pass of the loop from a candidate state sends only URLs and ends in a candidate state. */
  lemma StepSound(input: seq<byte>, s: Scan)
    requires Candidate(input, s)
    ensures var st := LoopStep(input, s);
      SoundSpans(input, st.spans, s.start) &&
      (st.Go? ==> Candidate(input, st.next) &&
                  forall i :: 0 <= i < |st.spans| ==> st.spans[i].end < st.next.start)
  {
    var st := LoopStep(input, s);
    if s.pos >= |input| {
      PassEnd(input, s);
      if s.pos > s.start && s.host != [] {
        EmitSound(input, s);
      }
    } else if Accepts(input, s) {
      PassAccept(input, s);
      ReadByte(input, s);
      AcceptKeepsCandidate(input, s);
    } else if s.size == 0 {
      PassSkip(input, s);
      FreshIsCandidate(input, st.next);
    } else {
      PassReject(input, s);
      FreshIsCandidate(input, st.next);
      if s.size >= 1 && s.host != [] {
        EmitSound(input, s);
      }
    }
  }

  /** Everything lexText sends from a candidate state is sound. */
  lemma {:induction false} LexTextSound(input: seq<byte>, s: Scan)
    requires Candidate(input, s)
    ensures SoundSpans(input, LexText(input, s), s.start)
    decreases |input| + 1 - s.pos
  {
    StepSound(input, s);
    match LoopStep(input, s)
    case Stop(_) =>
    case Go(spans, next) =>
      LexTextSound(input, next);
      SoundSpansCons(input, spans, LexText(input, next), s.start, next.start);
  }

  /**
   * Every token the lexer sends for `input` is `input[start:end]` with
   * `0 <= start < end <= len(input)`, is a URL with a non-empty host, and
   * ends before the next token starts.
   */
  lemma LexSound(input: seq<byte>)
    ensures SoundSpans(input, Lex(input), 0)
  {
    FreshIsCandidate(input, Initial);
    LexTextSound(input, Initial);
  }
}
