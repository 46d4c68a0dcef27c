// The URL lexer of lib/lexer.go as values: the lexer's fields gathered into
// one datatype, each Lexer method as a function from the old fields to the new
// ones, and lexText's loop as a recursive function from a state to the tokens
// it sends.  The class in lexer.dfy is proved to run exactly these functions.

module LexerModel {
  import opened ByteClass

  datatype StateType = StateScheme | StateSchemeSep | StateHost | StatePath | StateParams

  datatype TokenType = TokenFullURL | TokenPathURL

  /** A token as the lexer sends it on its channel. */
  datatype Token = Token(tokenType: TokenType, value: seq<byte>)

  /** Where a token comes from: its type and the bounds of the slice `input[start:end]`. */
  datatype Span = Span(tokenType: TokenType, start: int, end: int)

  /** The Lexer's fields other than `input` and `tokens`. */
  datatype Scan = Scan(
    scheme: seq<byte>,
    schemeSep: seq<byte>,
    host: seq<byte>,
    path: seq<byte>,
    params: seq<byte>,
    pos: int,
    width: int,
    size: int,
    start: int,
    stateType: StateType,
    tokenType: TokenType)

  /** The fields as NewLexer leaves them: Go zero values and `tokenType` TokenFullURL. */
  const Initial: Scan := Scan([], [], [], [], [], 0, 0, 0, 0, StateScheme, TokenFullURL)

  /**
   * The cursor invariant: `start <= pos`, `size == pos - start`, and `pos`
   * passes the end of the input by at most one, and then only on a fresh candidate.
   */
  predicate CursorOk(input: seq<byte>, s: Scan)
  {
    0 <= s.start <= s.pos <= |input| + 1 &&
    s.size == s.pos - s.start &&
    (s.pos == |input| + 1 ==> s.start == s.pos)
  }

  /** A candidate that has read nothing yet, as setAt leaves it (`params` is not reset). */
  predicate Fresh(s: Scan)
  {
    s.size == 0 && s.stateType == StateScheme && s.tokenType == TokenFullURL &&
    s.scheme == [] && s.schemeSep == [] && s.host == [] && s.path == []
  }

  /** The token values of a sequence of spans of the input. */
  function Values(input: seq<byte>, spans: seq<Span>): (toks: seq<Token>)
    requires forall i :: 0 <= i < |spans| ==> 0 <= spans[i].start <= spans[i].end <= |input|
    ensures |toks| == |spans|
    ensures forall i :: 0 <= i < |spans| ==>
      toks[i] == Token(spans[i].tokenType, input[spans[i].start..spans[i].end])
  {
    if spans == [] then []
    else [Token(spans[0].tokenType, input[spans[0].start..spans[0].end])] + Values(input, spans[1..])
  }

  lemma Regroup<T>(a: seq<T>, b: seq<T>, c: seq<T>)
    ensures a + (b + c) == (a + b) + c
  {
  }

  /** The values of two runs of spans, one after the other. */
  lemma ValuesAppend(input: seq<byte>, a: seq<Span>, b: seq<Span>)
    requires forall i :: 0 <= i < |a| ==> 0 <= a[i].start <= a[i].end <= |input|
    requires forall i :: 0 <= i < |b| ==> 0 <= b[i].start <= b[i].end <= |input|
    ensures Values(input, a + b) == Values(input, a) + Values(input, b)
  {
    var ab := a + b;
    assert forall i :: 0 <= i < |b| ==> ab[|a| + i] == b[i];
  }

  // ---------------------------------------------------------------------------
  // The cursor: next, backup, setAt, emitUpdate.
  // ---------------------------------------------------------------------------

  /** What `next` returns, and the fields after it. */
  datatype Read = Read(r: u16, after: Scan)

  /** next: the byte at `pos` (advancing the cursor by one), or the sentinel 256 at the end. */
  function Next(input: seq<byte>, s: Scan): (rd: Read)
    requires 0 <= s.pos
    ensures rd.r <= EofSentinel
    ensures rd.r == EofSentinel <==> s.pos >= |input|
    ensures rd.r < EofSentinel ==>
      rd.r as int == input[s.pos] as int && rd.after.pos == s.pos + 1 && rd.after.width == 1
    ensures rd.r == EofSentinel ==> rd.after.pos == s.pos && rd.after.width == 0
    ensures rd.after.start == s.start && rd.after.stateType == s.stateType
    ensures rd.after.(pos := s.pos, width := s.width, size := s.size) == s
    ensures rd.r < EofSentinel ==> rd.after.size == s.size + 1
    ensures CursorOk(input, s) ==> CursorOk(input, rd.after)
  {
    if s.pos >= |input| then
      Read(EofSentinel, s.(width := 0))
    else
      Read(input[s.pos] as int as u16, s.(pos := s.pos + 1, width := 1, size := s.size + 1))
  }

  /** backup: step the cursor back over the last byte read. */
  function Backup(s: Scan): (t: Scan)
    ensures s.width == 1 ==> t.pos == s.pos - 1
    ensures s.width == 1 && s.size == s.pos - s.start ==> t.size == t.pos - t.start
    ensures t.start == s.start && t.host == s.host && t.tokenType == s.tokenType
    ensures t.(pos := s.pos, size := s.size) == s
  {
    s.(pos := s.pos - s.width, size := s.size - 1)
  }

  /** setAt: start a fresh candidate; every accumulator except `params` is emptied. */
  function SetAt(s: Scan, start: int, pos: int): (t: Scan)
    ensures Fresh(t) && t.start == start && t.pos == pos
    ensures t.params == s.params && t.width == s.width
  {
    s.(start := start, pos := pos, size := 0, stateType := StateScheme, tokenType := TokenFullURL,
       scheme := [], schemeSep := [], host := [], path := [])
  }

  /** emitUpdate: the next candidate starts one past the cursor. */
  function EmitUpdate(s: Scan): (t: Scan)
    ensures Fresh(t) && t.start == s.pos + 1 && t.pos == s.pos + 1 && t.params == s.params
  {
    SetAt(s, s.pos + 1, s.pos + 1)
  }

  // ---------------------------------------------------------------------------
  // emit
  // ---------------------------------------------------------------------------

  /** What `emit` sends (nothing or one token) and the fields after it. */
  datatype Emitted = Emitted(spans: seq<Span>, after: Scan)

  /**
   * emit: drop a full-URL candidate with an empty host (and a path-URL
   * candidate with an empty path); otherwise send `input[start:pos]`.
   * Either way the next candidate starts one past the cursor.
   */
  function Emit(input: seq<byte>, s: Scan, t: TokenType): (e: Emitted)
    requires 0 <= s.start <= s.pos <= |input|
    ensures e.after == EmitUpdate(s)
    ensures |e.spans| <= 1
    ensures e.spans != [] <==>
      !(s.tokenType == TokenFullURL && s.host == []) && !(s.tokenType == TokenPathURL && s.path == [])
    ensures e.spans != [] ==> e.spans[0] == Span(t, s.start, s.pos)
  {
    if s.tokenType == TokenFullURL && |s.host| == 0 then
      Emitted([], EmitUpdate(s))
    else if s.tokenType == TokenPathURL && |s.path| == 0 then
      Emitted([], EmitUpdate(s))
    else
      Emitted([Span(t, s.start, s.pos)], EmitUpdate(s))
  }

  // ---------------------------------------------------------------------------
  // The five states.
  // ---------------------------------------------------------------------------

  /** Whether a state accepted the byte, and the fields after it. */
  datatype Verdict = Verdict(ok: bool, after: Scan)

  /** Where the candidate starts once the colon has been read: at a trailing `https` or `http` word, if any. */
  function TrimmedStart(input: seq<byte>, s: Scan): (t: int)
    requires 0 <= s.start <= s.pos <= |input| && s.size == s.pos - s.start
    ensures s.start <= t <= s.pos
    ensures t != s.start ==>
      (t == s.pos - 6 && input[t..s.pos - 1] == Https) || (t == s.pos - 5 && input[t..s.pos - 1] == Http)
    ensures s.size > 6 && input[s.pos - 6..s.pos - 1] == Https ==> t == s.pos - 6
    ensures s.size > 5 && input[s.pos - 5..s.pos - 1] == Http ==> t == s.pos - 5
  {
    // After `https` the four bytes before the colon are `ttps`, never `http`.
    assert s.size > 6 && input[s.pos - 6..s.pos - 1] == Https ==>
      input[s.pos - 5..s.pos - 1][0] == input[s.pos - 6..s.pos - 1][1] == 116;
    if s.size > 6 && input[s.pos - 6..s.pos - 1] == Https then s.pos - 6
    else if s.size > 5 && input[s.pos - 5..s.pos - 1] == Http then s.pos - 5
    else s.start
  }

  /**
   * processSchemeValid: a colon ends the scheme (moving the start to a
   * trailing `https` or `http` word); otherwise only a valid byte is accepted.
   */
  function ProcessSchemeValid(input: seq<byte>, s: Scan, r: byte): (v: Verdict)
    requires 0 <= s.start <= s.pos <= |input| && s.size == s.pos - s.start
    ensures s.start <= v.after.start <= v.after.pos == s.pos
    ensures v.ok <==> r == Colon || IsValidAll(r)
    ensures r != Colon ==> v.after == s
    ensures r == Colon ==> v.after == s.(schemeSep := s.schemeSep + [r], stateType := StateSchemeSep,
                                         start := TrimmedStart(input, s), size := s.pos - TrimmedStart(input, s))
    ensures r == Colon && v.after.start != s.start ==>
      (v.after.start == s.pos - 6 && input[v.after.start..s.pos - 1] == Https) ||
      (v.after.start == s.pos - 5 && input[v.after.start..s.pos - 1] == Http)
    ensures v.after.size == v.after.pos - v.after.start
  {
    if Class(r) == Col then
      var start := TrimmedStart(input, s);
      Verdict(true, s.(schemeSep := s.schemeSep + [r], stateType := StateSchemeSep,
                       start := start, size := s.pos - start))
    else
      Verdict(IsValidAll(r), s)
  }

  /** processSchemeSepValid: after the colon, exactly two slashes; the second enters the host. */
  function ProcessSchemeSepValid(s: Scan, r: byte): (v: Verdict)
    ensures v.ok <==> (|s.schemeSep| == 1 || |s.schemeSep| == 2) && r == Slash
    ensures !v.ok ==> v.after == s
    ensures v.ok ==> v.after.schemeSep == s.schemeSep + [r]
    ensures v.ok && |s.schemeSep| == 1 ==> v.after == s.(schemeSep := s.schemeSep + [r])
    ensures v.ok && |s.schemeSep| == 2 ==>
      v.after == s.(schemeSep := s.schemeSep + [r], stateType := StateHost, tokenType := TokenFullURL)
  {
    var c := Class(r);
    match |s.schemeSep|
    case 1 =>
      if c == Slh then Verdict(true, s.(schemeSep := s.schemeSep + [r])) else Verdict(false, s)
    case 2 =>
      if c == Slh then
        Verdict(true, s.(schemeSep := s.schemeSep + [r], stateType := StateHost, tokenType := TokenFullURL))
      else Verdict(false, s)
    case _ => Verdict(false, s)
  }

  /** processHostValid: a slash starts the path; a valid byte extends the host. */
  function ProcessHostValid(s: Scan, r: byte): (v: Verdict)
    ensures v.ok <==> r == Slash || IsValidAll(r)
    ensures r == Slash ==> v.after == s.(path := s.path + [r], stateType := StatePath)
    ensures r != Slash && IsValidAll(r) ==> v.after == s.(host := s.host + [r])
    ensures !v.ok ==> v.after == s
  {
    if Class(r) == Slh then Verdict(true, s.(path := s.path + [r], stateType := StatePath))
    else if IsValidAll(r) then Verdict(true, s.(host := s.host + [r]))
    else Verdict(false, s)
  }

  /** processPathValid: valid bytes and slashes extend the path; `?` or `@` (class 0x28) starts the parameters. */
  function ProcessPathValid(s: Scan, r: byte): (v: Verdict)
    ensures v.ok <==> IsValidAll(r) || r == Slash || r == Question || r == At
    ensures IsValidAll(r) || r == Slash ==> v.after == s.(path := s.path + [r])
    ensures r == Question || r == At ==> v.after == s.(params := s.params + [r], stateType := StateParams)
    ensures !v.ok ==> v.after == s
  {
    var c := Class(r);
    if c == Vld || c == Slh then Verdict(true, s.(path := s.path + [r]))
    else if c == Sp8 then Verdict(true, s.(params := s.params + [r], stateType := StateParams))
    else Verdict(false, s)
  }

  /** processParamsValid: any byte that the table does not mark invalid. */
  function ProcessParamsValid(r: byte): (ok: bool)
    ensures ok <==> IsValidAll(r) || IsMark(r)
  {
    InvalidClass(r);
    Class(r) != Inv
  }

  /** isValid: dispatch on the current state. */
  function IsValid(input: seq<byte>, s: Scan, r: byte): (v: Verdict)
    requires 0 <= s.start <= s.pos <= |input| && s.size == s.pos - s.start
    ensures !v.ok ==> v.after == s
    ensures v.after.pos == s.pos && s.start <= v.after.start
    ensures v.after.size == v.after.pos - v.after.start
    ensures s.tokenType == TokenFullURL ==> v.after.tokenType == TokenFullURL
  {
    match s.stateType
    case StateScheme => ProcessSchemeValid(input, s, r)
    case StateSchemeSep => ProcessSchemeSepValid(s, r)
    case StateHost => ProcessHostValid(s, r)
    case StatePath => ProcessPathValid(s, r)
    case StateParams => Verdict(ProcessParamsValid(r), s)
  }

  // ---------------------------------------------------------------------------
  // lexText
  // ---------------------------------------------------------------------------

  /** Go's `uint8(x)`: the low eight bits, so a byte that `next` returned comes back unchanged. */
  function ToByte(x: u16): (b: byte)
    ensures x as int < 0x100 ==> b as int == x as int
  {
    (x as int % 0x100) as byte
  }

  /** The byte `next` reads at `pos`, narrowed back to a byte, is the input's byte there. */
  lemma ReadByte(input: seq<byte>, s: Scan)
    requires 0 <= s.pos < |input|
    ensures ToByte(Next(input, s).r) == input[s.pos]
  {
  }

  /** Whether the current state accepts the byte at `pos`. */
  predicate Accepts(input: seq<byte>, s: Scan)
    requires CursorOk(input, s) && s.pos < |input|
  {
    IsValid(input, Next(input, s).after, input[s.pos]).ok
  }

  /**
   * One pass of lexText's loop: either the end of the input was read (the
   * loop breaks and the candidate, if not empty, is emitted) or one byte
   * was read and the loop goes on from `next`.
   */
  datatype Step = Stop(spans: seq<Span>) | Go(spans: seq<Span>, next: Scan)

  /**
   * One pass of lexText's loop from `s`.  A byte the state accepts extends
   * the candidate.  A rejected byte at index `k` closes it: when more than
   * one byte was read the cursor backs up to `k`, the candidate
   * `input[start:k]` goes to emit and the next one starts at `k+1`; when
   * only one byte was read nothing is emitted and the next candidate starts
   * at `k+2`.
   */
  function LoopStep(input: seq<byte>, s: Scan): (st: Step)
    requires CursorOk(input, s)
    ensures st.Stop? <==> s.pos >= |input|
    ensures st.Go? ==> CursorOk(input, st.next) && s.pos < st.next.pos && s.start <= st.next.start
  {
    var rd := Next(input, s);
    if ClassOf(rd.r as int) == Eof then
      Stop(if rd.after.pos > rd.after.start then Emit(input, rd.after, rd.after.tokenType).spans else [])
    else
      var r := ToByte(rd.r);
      var v := IsValid(input, rd.after, r);
      if v.ok then
        Go([], v.after)
      else if v.after.size > 1 then
        var e := Emit(input, Backup(v.after), v.after.tokenType);
        Go(e.spans, e.after)
      else
        Go([], EmitUpdate(v.after))
  }

  /** A pass whose byte the state accepts sends nothing and only moves the cursor on. */
  lemma PassAccept(input: seq<byte>, s: Scan)
    requires CursorOk(input, s) && s.pos < |input| && Accepts(input, s)
    ensures LoopStep(input, s) == Go([], LoopStep(input, s).next)
    ensures LoopStep(input, s).next.pos == s.pos + 1
  {
    ReadByte(input, s);
    OnlySentinelIsEof(Next(input, s).r as int);
  }

  /**
   * A pass that rejects the byte at `k` after at least one byte of the
   * candidate was read sends `input[start:k]` if the candidate has a host,
   * and the next candidate starts at `k+1`.
   */
  lemma PassReject(input: seq<byte>, s: Scan)
    requires CursorOk(input, s) && s.pos < |input| && !Accepts(input, s)
    requires s.size >= 1 && s.tokenType == TokenFullURL
    ensures var st := LoopStep(input, s);
      st.Go? && Fresh(st.next) && st.next.start == st.next.pos == s.pos + 1 &&
      st.spans == if s.host == [] then [] else [Span(TokenFullURL, s.start, s.pos)]
  {
    ReadByte(input, s);
    OnlySentinelIsEof(Next(input, s).r as int);
  }

  /** A pass that rejects the first byte of a candidate sends nothing; the next candidate starts at `k+2`. */
  lemma PassSkip(input: seq<byte>, s: Scan)
    requires CursorOk(input, s) && s.pos < |input| && !Accepts(input, s) && s.size == 0
    ensures var st := LoopStep(input, s);
      st == Go([], st.next) && Fresh(st.next) && st.next.start == st.next.pos == s.pos + 2
  {
    ReadByte(input, s);
    OnlySentinelIsEof(Next(input, s).r as int);
  }

  /** The pass at the end of the input sends the candidate if it is not empty and has a host. */
  lemma PassEnd(input: seq<byte>, s: Scan)
    requires CursorOk(input, s) && s.pos >= |input| && s.tokenType == TokenFullURL
    ensures LoopStep(input, s).spans ==
      if s.pos > s.start && s.host != [] then [Span(TokenFullURL, s.start, s.pos)] else []
  {
  }

  /** The tokens lexText sends from state `s` on: its loop, pass after pass, until the end of the input. */
  function LexText(input: seq<byte>, s: Scan): (spans: seq<Span>)
    requires CursorOk(input, s)
    ensures forall i :: 0 <= i < |spans| ==> s.start <= spans[i].start <= spans[i].end <= |input|
    decreases |input| + 1 - s.pos
  {
    match LoopStep(input, s)
    case Stop(spans) => spans
    case Go(spans, next) => spans + LexText(input, next)
  }

  /** The pass that reads the end of the input: the last candidate goes to emit if it is not empty. */
  lemma LexTextStop(input: seq<byte>, s: Scan)
    requires CursorOk(input, s) && s.pos >= |input|
    ensures s.pos == |input| ==> Next(input, s).after.start <= Next(input, s).after.pos <= |input|
    ensures LexText(input, s) ==
      var t := Next(input, s).after;
      if t.pos > t.start then Emit(input, t, t.tokenType).spans else []
  {
  }

  /**
   * Everything the lexer sends for `input`, in order: lexText run once from
   * the fields NewLexer sets up.  Every token is a slice within the input.
   */
  function Lex(input: seq<byte>): (spans: seq<Span>)
    ensures forall i :: 0 <= i < |spans| ==> 0 <= spans[i].start <= spans[i].end <= |input|
  {
    LexText(input, Initial)
  }
}
