// The Lexer object of lib/lexer.go: its fields, updated in place by its
// methods, each method proved to do exactly what the matching function of
// LexerModel says.  The goroutine and the unbuffered channel become a direct
// call and an ordered sequence of the tokens sent.

module Lexer {
  import opened ByteClass
  import opened LexerModel

  class Lexer {
    const input: seq<byte>
    var scheme: seq<byte>
    var schemeSep: seq<byte>
    var host: seq<byte>
    var path: seq<byte>
    var params: seq<byte>
    var pos: int
    var width: int
    var size: int
    var start: int
    var stateType: StateType
    var tokenType: TokenType

    /** The tokens sent on the channel so far, in the order they were sent. */
    var tokens: seq<Token>

    /** Where each sent token was cut from the input. */
    ghost var spans: seq<Span>

    /** The fields other than `input` and the channel, as one value. */
    function Fields(): Scan
      reads this
    {
      Scan(scheme, schemeSep, host, path, params, pos, width, size, start, stateType, tokenType)
    }

    /** Every sent token is the slice of the input its span names. */
    ghost predicate SentOk()
      reads this
    {
      (forall i :: 0 <= i < |spans| ==> 0 <= spans[i].start <= spans[i].end <= |input|) &&
      tokens == Values(input, spans)
    }

    /** The object invariant: the cursor invariant and the sent tokens. */
    ghost predicate Valid()
      reads this
    {
      CursorOk(input, Fields()) && SentOk()
    }

    /**
     * NewLexer: the fields start at their zero values with `tokenType`
     * TokenFullURL, and the lexer runs to the end of the input.
     */
    constructor NewLexer(input: seq<byte>)
      ensures this.input == input
      ensures Valid()
      ensures spans == Lex(input)
      ensures tokens == Values(input, Lex(input))
    {
      this.input := input;
      scheme, schemeSep, host, path, params := [], [], [], [], [];
      pos, width, size, start := 0, 0, 0, 0;
      stateType := StateScheme;
      tokenType := TokenFullURL;
      tokens := [];
      spans := [];
      new;
      assert Fields() == Initial;
      Run();
    }

    /** run: lexText is the only state function; it runs once, and then the channel is closed. */
    method Run()
      requires Valid()
      modifies this
      ensures Valid()
      ensures spans == old(spans) + LexerModel.LexText(input, old(Fields()))
      ensures tokens == old(tokens) + Values(input, LexerModel.LexText(input, old(Fields())))
    {
      LexText();
      ValuesAppend(input, old(spans), LexerModel.LexText(input, old(Fields())));
    }

    /** emit: send `input[start:pos]` unless the candidate has no host; start the next candidate. */
    method Emit(t: TokenType)
      requires 0 <= start <= pos <= |input| && SentOk()
      modifies this
      ensures Fields() == LexerModel.Emit(input, old(Fields()), t).after
      ensures spans == old(spans) + LexerModel.Emit(input, old(Fields()), t).spans
      ensures tokens == old(tokens) + Values(input, LexerModel.Emit(input, old(Fields()), t).spans)
      ensures SentOk()
    {
      if tokenType == TokenFullURL && |host| == 0 {
        EmitUpdate();
        return;
      }
      if tokenType == TokenPathURL && |path| == 0 {
        EmitUpdate();
        return;
      }
      tokens := tokens + [Token(t, input[start..pos])];
      spans := spans + [Span(t, start, pos)];
      EmitUpdate();
    }

    /** emitUpdate: the next candidate starts one past the cursor. */
    method EmitUpdate()
      modifies this
      ensures Fields() == LexerModel.EmitUpdate(old(Fields()))
      ensures tokens == old(tokens) && spans == old(spans)
    {
      SetAt(pos + 1, pos + 1);
    }

    /** setAt: move the cursor and reset the candidate (`params` is not reset). */
    method SetAt(start: int, pos: int)
      modifies this
      ensures Fields() == LexerModel.SetAt(old(Fields()), start, pos)
      ensures tokens == old(tokens) && spans == old(spans)
    {
      this.start := start;
      this.pos := pos;
      size := 0;
      stateType := StateScheme;
      tokenType := TokenFullURL;
      scheme := [];
      schemeSep := [];
      host := [];
      path := [];
    }

    /** backup: step back over the last byte read. */
    method Backup()
      modifies this
      ensures Fields() == LexerModel.Backup(old(Fields()))
      ensures tokens == old(tokens) && spans == old(spans)
    {
      pos := pos - width;
      size := size - 1;
    }

    /** next: the byte at the cursor, advancing it, or the sentinel 256 at the end of the input. */
    method Next() returns (r: u16)
      requires 0 <= pos
      modifies this
      ensures r == LexerModel.Next(input, old(Fields())).r
      ensures Fields() == LexerModel.Next(input, old(Fields())).after
      ensures tokens == old(tokens) && spans == old(spans)
    {
      if pos >= |input| {
        width := 0;
        return EofSentinel;
      }
      r := input[pos] as int as u16;
      pos := pos + 1;
      width := 1;
      size := size + 1;
    }

    /** processSchemeValid: the colon rule, with its `https`/`http` trim, or a valid byte. */
    method ProcessSchemeValid(r: byte) returns (ok: bool)
      requires 0 <= start <= pos <= |input| && size == pos - start
      modifies this
      ensures ok == LexerModel.ProcessSchemeValid(input, old(Fields()), r).ok
      ensures Fields() == LexerModel.ProcessSchemeValid(input, old(Fields()), r).after
      ensures tokens == old(tokens) && spans == old(spans)
    {
      if Class(r) == Col {
        ghost var trimmed := TrimmedStart(input, Fields());
        schemeSep := schemeSep + [r];
        stateType := StateSchemeSep;
        if size > 6 && IsHttpsWord(input[pos - 6..pos - 1]) {
          start := pos - 6;
          size := pos - start;
          // After `https` the four bytes before the colon are `ttps`, so the second test fails.
          assert input[pos - 5] == input[pos - 6..pos - 1][1] == 116;
        }
        if size > 5 && IsHttpWord(input[pos - 5..pos - 1]) {
          start := pos - 5;
          size := pos - start;
        }
        assert start == trimmed;
        return true;
      }
      return IsValidAll(r);
    }

    /** processSchemeSepValid: the two slashes after the colon. */
    method ProcessSchemeSepValid(r: byte) returns (ok: bool)
      modifies this
      ensures ok == LexerModel.ProcessSchemeSepValid(old(Fields()), r).ok
      ensures Fields() == LexerModel.ProcessSchemeSepValid(old(Fields()), r).after
      ensures tokens == old(tokens) && spans == old(spans)
    {
      var s := Class(r);
      match |schemeSep| {
        case 1 =>
          if s == Slh {
            schemeSep := schemeSep + [r];
            return true;
          }
        case 2 =>
          if s == Slh {
            schemeSep := schemeSep + [r];
            stateType := StateHost;
            tokenType := TokenFullURL;
            return true;
          }
        case _ =>
      }
      return false;
    }

    /** processHostValid: a slash starts the path, a valid byte extends the host. */
    method ProcessHostValid(r: byte) returns (ok: bool)
      modifies this
      ensures ok == LexerModel.ProcessHostValid(old(Fields()), r).ok
      ensures Fields() == LexerModel.ProcessHostValid(old(Fields()), r).after
      ensures tokens == old(tokens) && spans == old(spans)
    {
      if Class(r) == Slh {
        path := path + [r];
        stateType := StatePath;
        return true;
      }
      if IsValidAll(r) {
        host := host + [r];
        return true;
      }
      return false;
    }

    /** processPathValid: valid bytes and slashes extend the path, `?` or `@` starts the parameters. */
    method ProcessPathValid(r: byte) returns (ok: bool)
      modifies this
      ensures ok == LexerModel.ProcessPathValid(old(Fields()), r).ok
      ensures Fields() == LexerModel.ProcessPathValid(old(Fields()), r).after
      ensures tokens == old(tokens) && spans == old(spans)
    {
      var s := Class(r);
      if s == Vld || s == Slh {
        path := path + [r];
        return true;
      }
      if s == Sp8 {
        params := params + [r];
        stateType := StateParams;
        return true;
      }
      return false;
    }

    /** processParamsValid: any byte that the table does not mark invalid. */
    method ProcessParamsValid(r: byte) returns (ok: bool)
      ensures ok == LexerModel.ProcessParamsValid(r)
    {
      return Class(r) != Inv;
    }

    /** isValid: dispatch on the current state. */
    method IsValid(r: byte) returns (ok: bool)
      requires 0 <= start <= pos <= |input| && size == pos - start
      modifies this
      ensures ok == LexerModel.IsValid(input, old(Fields()), r).ok
      ensures Fields() == LexerModel.IsValid(input, old(Fields()), r).after
      ensures tokens == old(tokens) && spans == old(spans)
    {
      match stateType
      case StateScheme => ok := ProcessSchemeValid(r);
      case StateSchemeSep => ok := ProcessSchemeSepValid(r);
      case StateHost => ok := ProcessHostValid(r);
      case StatePath => ok := ProcessPathValid(r);
      case StateParams => ok := ProcessParamsValid(r);
    }

    /**
     * One pass of lexText's loop: read a byte; at the end of the input stop
     * (the loop breaks); otherwise keep the byte if the state accepts it, or
     * close the candidate at it (backing up and emitting when more than one
     * byte was read, skipping on otherwise).  Proved to be LoopStep.
     */
    method Pass() returns (stop: bool)
      requires Valid()
      modifies this
      ensures Valid()
      ensures stop <==> old(pos) >= |input|
      ensures stop ==> Fields() == LexerModel.Next(input, old(Fields())).after && spans == old(spans)
      ensures !stop ==> Fields() == LoopStep(input, old(Fields())).next
      ensures !stop ==> spans == old(spans) + LoopStep(input, old(Fields())).spans
    {
      var x := Next();
      if ClassOf(x as int) == Eof {
        return true;
      }
      var r := ToByte(x);
      var ok := IsValid(r);
      if ok {
        return false;
      }
      if size > 1 {
        Backup();
      } else {
        EmitUpdate();
        return false;
      }
      Emit(tokenType);
      return false;
    }

    /**
     * lexText: pass after pass until the end of the input, then emit the
     * last candidate if it is not empty.
     */
    method LexText()
      requires Valid()
      modifies this
      ensures Valid()
      ensures spans == old(spans) + LexerModel.LexText(input, old(Fields()))
    {
      ghost var spans0 := spans;
      ghost var all := LexerModel.LexText(input, Fields());
      while true
        invariant Valid()
        invariant spans0 + all == spans + LexerModel.LexText(input, Fields())
        decreases |input| + 1 - pos
      {
        ghost var s := Fields();
        ghost var sent := spans;
        var stop := Pass();
        if stop {
          LexTextStop(input, s);
          break;
        }
        Regroup(sent, LoopStep(input, s).spans, LexerModel.LexText(input, Fields()));
      }
      if pos > start {
        Emit(tokenType);
      }
    }
  }
}
