# urly: the URL lexer and its driver, modelled and proved in Dafny

urly pulls URLs out of arbitrary bytes. `lib/lexer.go` holds a hand-written
lexer. It classifies every byte through a 257-entry lookup table: the 256
byte values plus an end-of-input sentinel at index 256. It moves a cursor
(`start`, `pos`, `size`) through the input and runs a five-state machine:

- **Scheme:** valid bytes, then a colon. On the colon the candidate start
  moves back to a trailing `https` or `http` word.
- **SchemeSep:** exactly two slashes.
- **Host:** valid bytes; a slash moves to Path.
- **Path:** valid bytes and slashes; `?` or `@` moves to Params.
- **Params:** any byte the table does not mark invalid.

A byte the current state rejects closes the candidate. `emit` sends it as a
token unless its host is empty. `lib/urly.go`'s `ExtractURL` writes every
token's value followed by a line feed.

The project has six modules:

| module | file | contents |
|---|---|---|
| `ByteClass` | `byteclass.dfy` | The table, written out entry by entry by position. It is proved equal to an independent per-character reading, `ClassOf`. Also `isValidAll`, `isHttpWord` and `isHttpsWord`. |
| `LexerModel` | `lexer_model.dfy` | The lexer's fields as a `Scan` value and every lexer method as a function from old fields to new ones. One pass of `lexText`'s loop is `LoopStep`. The whole loop is the recursive `LexText`, which yields the tokens sent, as spans of the input. |
| `Lexer` | `lexer.dfy` | The `Lexer` class with Go's fields, updated in place by one method per Go method. Each method is proved to do exactly what its `LexerModel` function says. `NewLexer` runs the lexer and leaves the tokens sent, in order, in `tokens`. |
| `LexerSound` | `lexer_sound.dfy` | What every token is: a slice of the input, shaped `scheme "://" host [ "/" path [ ("?" \| "@") params ] ]`, with a non-empty host and no invalid byte. Tokens are sent in order and never overlap. |
| `LexerComplete` | `lexer_complete.dfy` | The converse. Such a URL, at the start of a fresh candidate and followed by an invalid byte or the end of the input, is sent whole. |
| `Urly` | `urly.dfy` | `ExtractURL` as a method, and properties of its output. There is one line feed per token. Splitting at line feeds gives back the tokens. Extracting from the output gives the output again. |

Behaviour of the code as written, kept in the model:

- A rejected byte ends the candidate and is never examined again.
  - When more than one byte was read, the candidate is `input[start:k]` and the next one starts at `k+1`.
  - When the rejected byte was the first of its candidate, the next candidate starts at `k+2`, so the byte after it is skipped as well.
- `tokenType` is always `TokenFullURL`.
- A colon with an empty scheme is accepted.
- The Host state rejects `@`, `:` and `?`.
- `params` is never cleared by `setAt`.
- The word trim needs `size > 6` for `https` and `size > 5` for `http`, so a bare `https` or `http` scheme stays as it is.

## Model

| member | source | states |
|---|---|---|
| ByteClass.LookupClass | lib/lexer.go:50-84 | The table has 257 entries, and each one is the class of its index described by character: digits, letters and `.` are vld, and so on. |
| ByteClass.LookupTotal | lib/lexer.go:50-84 | The lookup is total over 0..256. The sentinel 256 that `next` returns at the end of the input is the only entry of class eof. |
| ByteClass.QuestionAndAtShareClass | lib/lexer.go:42-43 | `?` and `@` both have class 0x28 in the table. |
| ByteClass.LineFeedAndSpaceInvalid | lib/lexer.go:51-55 | The line feed (10) and the space (32) are of class inv. |
| ByteClass.Class | lib/lexer.go:182 | `lookup[r]` for a byte is never eof. It is vld exactly for digits, letters and `.`; slh exactly for `/`; col exactly for `:`; 0x28 exactly for `?` and `@`. |
| ByteClass.Lookup | lib/lexer.go:50-84 | The table itself, 257 entries written out by position, with the sentinel's eof entry last. Its properties are stated by LookupClass and LookupTotal. |
| ByteClass.InvalidClass | lib/lexer.go:50-84 | A byte's table entry is inv exactly when the byte is neither a digit, a letter nor one of the marks `./:!#$%&'=?@_`. These are the bytes the `!= inv` test of `processParamsValid` (line 247) rejects. |
| ByteClass.IsValidAll | lib/lexer.go:309-311 | `isValidAll` holds exactly for the digits, the letters and the period. |
| ByteClass.IsHttpWord | lib/lexer.go:299-302 | A word `isHttpWord` accepts is four bytes, each valid in a scheme. |
| ByteClass.IsHttpsWord | lib/lexer.go:304-307 | A word `isHttpsWord` accepts is five bytes that start with `http`. Its last four bytes are not `http`, so the second trim test cannot fire after the first. |
| LexerModel.Values | lib/lexer.go:130-133 | One token per span, carrying the span's type and the slice `input[start:end]`. |
| LexerModel.Next | lib/lexer.go:169-179 | At the end of the input: the sentinel 256, `width` 0, cursor unchanged. Otherwise: the byte at `pos`, `pos` and `size` one further, `width` 1. No other field changes, and the cursor invariant is kept either way. |
| LexerModel.ReadByte | lib/lexer.go:174-178 | The value `next` returns for a byte, narrowed back with `uint8` at line 277, is the input's byte at `pos`. |
| LexerModel.ToByte | lib/lexer.go:277 | `uint8(x)` gives back unchanged every value below 256, which is every value `next` returns before the sentinel. |
| LexerModel.Backup | lib/lexer.go:156-159 | After a one-byte read the cursor steps back one and `size == pos - start` still holds. Only `pos` and `size` change. |
| LexerModel.SetAt | lib/lexer.go:141-151 | A fresh candidate at the given start and position. Every accumulator except `params` is emptied. |
| LexerModel.EmitUpdate | lib/lexer.go:137-139 | A fresh candidate starting at `pos+1`. |
| LexerModel.Emit | lib/lexer.go:114-135 | At most one token is sent: exactly when the full-URL candidate has a host (or a path-URL candidate has a path). It is `input[start:pos]`, and the next candidate starts at `pos+1`. |
| LexerModel.TrimmedStart | lib/lexer.go:186-193 | The start stays or moves to `pos-6` or `pos-5`, both directions. It moves to `pos-6` exactly when `size > 6` and the five bytes before the colon are `https`. It moves to `pos-5` exactly when `size > 5` and the four bytes before the colon are `http`. |
| LexerModel.ProcessSchemeValid | lib/lexer.go:181-197 | Accepts exactly the colon and vld bytes. Any other byte leaves every field as it was. The colon sets the state to SchemeSep, appends itself to `schemeSep`, and sets `start` to TrimmedStart with `size == pos - start`; every other field is unchanged. |
| LexerModel.ProcessSchemeSepValid | lib/lexer.go:199-216 | Accepts a slash only as the second or third separator byte. The third enters Host; anything else is rejected with no change. |
| LexerModel.ProcessHostValid | lib/lexer.go:218-229 | A slash starts the path and enters Path. A vld byte extends the host. Anything else is rejected with no change. |
| LexerModel.ProcessPathValid | lib/lexer.go:231-244 | vld bytes and slashes extend the path. `?` or `@` enters Params. Anything else is rejected with no change. |
| LexerModel.ProcessParamsValid | lib/lexer.go:246-248 | Accepts exactly the digits, letters and marks, that is every byte not of class inv. |
| LexerModel.IsValid | lib/lexer.go:250-264 | The dispatch never moves the cursor and never moves the start backwards. It keeps `size == pos - start` and leaves the fields unchanged on a rejection. |
| LexerModel.LoopStep | lib/lexer.go:269-291 | A pass stops exactly at the end of the input. Otherwise it strictly advances `pos`, never moves the start back, and keeps the cursor invariant, so the loop terminates. |
| LexerModel.PassAccept | lib/lexer.go:279-281 | An accepted byte sends nothing and moves the cursor one on. |
| LexerModel.PassReject | lib/lexer.go:283-290 | A byte rejected at `k` after at least one byte sends `input[start:k]` if there is a host. The next candidate is fresh at `k+1`. |
| LexerModel.PassSkip | lib/lexer.go:285-287 | A byte rejected as the first of its candidate sends nothing. The next candidate is fresh at `k+2`. |
| LexerModel.PassEnd | lib/lexer.go:293-295 | At the end of the input the candidate is sent if it is not empty and has a host. |
| LexerModel.LexText | lib/lexer.go:268-297 | Every span sent lies in `input[start:]` with `start <= end <= len(input)`, so every slice is in bounds. |
| LexerModel.Lex | lib/lexer.go:313-321 | What NewLexer's run sends: lexText once, from the initial fields. Every token is a slice within the input. |
| LexerModel.Initial | lib/lexer.go:314-318 | The fields NewLexer sets up: Go's zero values, with `tokenType` TokenFullURL. |
| LexerModel.LexTextStop | lib/lexer.go:273-275 | At the end of the input lexText sends the last candidate through `emit` if it is not empty, and nothing else. |
| LexerSound.KeptScheme | lib/lexer.go:186-193 | When the colon rule leaves the start where it is, the scheme read has no bytes before a trailing `https` or `http` word. |
| LexerSound.UrlHasNoInvalidByte | lib/lexer.go:181-248 | A URL of the shape the states accept holds no byte of class inv, in particular no line feed and no space. |
| LexerSound.EmitSound | lib/lexer.go:114-135 | A candidate that reaches `emit` with a host is a URL of that shape. |
| LexerSound.AcceptKeepsCandidate | lib/lexer.go:250-264 | Any byte a state accepts keeps the bytes read so far consistent with the state and its accumulators. |
| LexerSound.StepSound | lib/lexer.go:269-291 | One pass from a candidate state sends only URLs, each ending before the next candidate starts. The state reached is again a candidate state. |
| LexerSound.LexTextSound | lib/lexer.go:268-297 | Everything lexText sends from a candidate state is sound: in-bounds non-empty URL slices with a host, in order and disjoint. |
| LexerSound.LexSound | lib/lexer.go:313-321 | For any input, every token sent is `input[start:end]` with `0 <= start < end <= len(input)`, of type TokenFullURL, and a URL with a non-empty host. Each token ends before the next begins. |
| LexerComplete.TrackStep | lib/lexer.go:250-264 | Each byte of a URL placed at the candidate start is accepted with nothing sent, and lexing stays on track through the URL. |
| LexerComplete.UntrimmedStart | lib/lexer.go:186-193 | A scheme with no bytes before a trailing `https`/`http` word keeps its start at the colon. |
| LexerComplete.EndPass | lib/lexer.go:283-295 | A candidate with a host, followed by an invalid byte or the end of the input, is sent as it stands. |
| LexerComplete.TrackToEnd | lib/lexer.go:268-297 | From any point on track, lexText sends the whole URL first. |
| LexerComplete.LexUrl | lib/lexer.go:268-297 | A URL at a fresh candidate, followed by an invalid byte or the end of the input, is the first token sent. |
| LexerComplete.LexUrlThen | lib/lexer.go:283-290 | After such a URL and its invalid byte, lexing goes on from a fresh candidate just past that byte. |
| LexerComplete.FreshAtEnd | lib/lexer.go:293-297 | A fresh candidate at the end of the input sends nothing. |
| Lexer.Lexer.NewLexer | lib/lexer.go:313-321 | The lexer holds the input, has run, and has sent exactly the tokens `Lex(input)` names, in order. |
| Lexer.Lexer.Run | lib/lexer.go:107-112 | Running sends exactly what lexText sends from the current fields, after the tokens already sent. |
| Lexer.Lexer.Emit | lib/lexer.go:114-135 | The fields and the sent tokens change exactly as `LexerModel.Emit` says. |
| Lexer.Lexer.EmitUpdate | lib/lexer.go:137-139 | The fields become `LexerModel.EmitUpdate` of the old ones, and nothing is sent. |
| Lexer.Lexer.SetAt | lib/lexer.go:141-151 | The fields become `LexerModel.SetAt` of the old ones, and nothing is sent. |
| Lexer.Lexer.Backup | lib/lexer.go:156-159 | The fields become `LexerModel.Backup` of the old ones. |
| Lexer.Lexer.Next | lib/lexer.go:169-179 | Returns the byte or sentinel that `LexerModel.Next` names, and updates the fields the same way. |
| Lexer.Lexer.ProcessSchemeValid | lib/lexer.go:181-197 | Go's two sequential trim tests yield exactly `LexerModel.ProcessSchemeValid`'s verdict and fields. |
| Lexer.Lexer.ProcessSchemeSepValid | lib/lexer.go:199-216 | Verdict and fields as `LexerModel.ProcessSchemeSepValid`. |
| Lexer.Lexer.ProcessHostValid | lib/lexer.go:218-229 | Verdict and fields as `LexerModel.ProcessHostValid`. |
| Lexer.Lexer.ProcessPathValid | lib/lexer.go:231-244 | Verdict and fields as `LexerModel.ProcessPathValid`. |
| Lexer.Lexer.ProcessParamsValid | lib/lexer.go:246-248 | Verdict as `LexerModel.ProcessParamsValid`. |
| Lexer.Lexer.IsValid | lib/lexer.go:250-264 | Verdict and fields as `LexerModel.IsValid`. |
| Lexer.Lexer.Pass | lib/lexer.go:270-290 | One iteration of the loop body. It stops exactly at the end of the input; otherwise fields and sent tokens follow `LoopStep`. The object invariant is kept. |
| Lexer.Lexer.LexText | lib/lexer.go:268-297 | The loop and the final emit send exactly `LexerModel.LexText` of the starting fields. |
| Urly.Lines | lib/urly.go:7-11 | The fold of `append`s: each value followed by byte 10. It is empty exactly when there are no values, and otherwise ends in byte 10. |
| Urly.TokenValues | lib/urly.go:8-9 | One value per token, in order. |
| Urly.ExtractURL | lib/urly.go:5-14 | The output is every token value followed by byte 10, in the order sent. It is empty when no token is sent, and the error is always nil. |
| Urly.LinesCount | lib/urly.go:8-11 | Values without line feeds produce exactly one line feed each. |
| Urly.UrlsAreUrls | lib/lexer.go:181-248 | Every token value is a URL with no invalid byte and no line feed. |
| Urly.OutputCountsTokens | lib/urly.go:10 | The output holds as many line feeds as there are tokens. |
| Urly.SplitOutput | lib/urly.go:8-11 | Splitting the output at byte 10 gives the token values in order, then one empty piece. |
| Urly.LexLinesFrom | lib/lexer.go:268-297 | From a fresh candidate at newline-terminated URLs, the lexer sends exactly those URLs. |
| Urly.LinesFixpoint | lib/urly.go:5-14 | Newline-terminated URLs are their own extraction. |
| Urly.ExtractIdempotent | lib/urly.go:5-14 | Extracting from the output gives the same values and the same output. |

## Left out

- The goroutine, the channel and `close`: `NewLexer` runs the lexer directly, and the tokens sent are the ordered sequence `tokens`. The caller's `range` loop reads that sequence.
- `fmt.Print(1)` and `fmt.Print(2)` in `emit` write to standard output; dropping the candidate is modelled, the printing is not.
- `peek` and `addType`, which nothing calls. The class constant `dig` is declared (`ByteClass.Dig`), but no table entry and no state uses it.
- `run`'s state-function loop. `lexText` is the only state function and it returns nil, so `Run` calls `LexText` once.
- The body of `lexText`'s loop is the method `Pass`, with Go's `continue`/`break` as its return value. The loop itself stays in `LexText`.
- Lexer.Lexer.Next: Go's `int` is 64-bit; the model uses unbounded integers. `pos` never exceeds `len(input)+1`, so no overflow can occur.
- `cmd/urly/main.go`, the command-line wrapper reading standard input, is not part of this model.
- `lib/urly_test.go` is a golden-file test over fixture files that are not available. It also passes a file where `ExtractURL` takes bytes.
- Behaviour the code does not have is not modelled: scoring candidates, reclassifying a slash-led candidate as a path URL, custom-scheme tokens. The `TokenPathURL` branch of `emit` is modelled but unreachable.
- LexerComplete.LexUrl: proved for URLs at the start of a fresh candidate, not after arbitrary bytes. Which prefix of an arbitrary input ends up as a URL is stated by LexerSound.LexSound instead.
