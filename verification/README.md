# Betokened, modelled in Dafny

Betokened is a small lexer-combinator kit written in Swift. Primitive
*parsers* test the text at a cursor and consume it. *Recognizers* wrap a
parser and turn what it consumed into a token, or into nothing. A
*tokenizer* is an ordered list of recognizers. Its `tokenize` loop walks
the input from left to right and gathers the tokens.

This project models all of that as pure Dafny functions over an immutable
cursor `Stream(storage, index)`. Running a parser or a recognizer gives an
`Outcome`:

- `Returned(value, after)`: a result, together with the stream as the
  Swift code leaves it.
- `Trapped`: the Swift code hits a runtime trap. This happens when it
  advances a `String.Index` past the end of the input.

`None` inside `value` is the library's `nil`, meaning "not applicable".
It is distinct from both `Ok` and `Err`. The library's parsers and
recognizers form closed datatypes (`Parsers.Parser`,
`Recognizers.Recognizer<T>`). The token mapping `f(text, span)` stays a
free function parameter. For a tokenizer built only from these
recognizers, the scan can be proved to terminate: every `Ok` away from the
end of the input moves the index forward. The library also builds one
recognizer that does not move the index (see "## Left out"), and it is
outside this set.

Files, one module each:

- `wrappers.dfy`: `Option` and the two `*` operators of `Cell`.
- `string_stream.dfy`: the cursor.
- `result.dfy`: the outcome types.
- `parsers.dfy`: `string`, `oneCharOf`, `oneStringOf` and `whitespace`.
- `recognizers.dfy`: `transform` / `>>`, the `whitespace` recognizer and the
  `end` recognizer.
- `tokenizer.dfy`: the scan. `Scan` is a recursive reference definition.
  `Tokenize` is the library's loop, and it is proved equal to `Scan`.
- `combine.dfy`: `combine` / `|`.
- `scenarios.dfy`: the library's test scenario, worked through the model.

Three details of the Swift code are kept exactly as written, although
they look unintended:

- `string(pattern)` reports the span `[i, i+|pattern|)`, but it moves the
  index to `i+|pattern|+1`. The character after the match is swallowed. A
  match that ends exactly at the end of the input traps
  (Betokened/Parsers.swift:21). So a literal never consumes a whole input
  that equals it.
- `whitespace` computes its span before its last advance. A run of n
  characters reports `[i, i+n-1)` and moves the index to `i+n`.
- The trailing-input error is called `EndOfStringExpected`.
  `UnterminatedDelimiter` is declared but no code produces it.

## Model

| member | source | states |
|---|---|---|
| Wrappers.Wrap | Betokened/Betokened.swift:27-29 | boxing gives a present token, and unboxing that box gives back the same value |
| Wrappers.Unwrap | Betokened/Betokened.swift:21-23 | unboxing a present token gives the value it was boxed from |
| StringStream.New | Betokened/StringStream.swift:14-26 | a fresh stream (from any of the initialisers) holds the given text at index 0, its unconsumed text is the whole text, and it is at its end iff the text is empty |
| StringStream.Rest | Betokened/StringStream.swift:27-29 | the `string` property is exactly the suffix after the index: the consumed prefix followed by it rebuilds the input |
| StringStream.AtEnd | Betokened/StringStream.swift:30-32 | `atEnd` holds iff nothing is left unconsumed |
| StringStream.ConvertRange | Betokened/StringStream.swift:33-36 | a suffix range is rebased to start at the current index with the same length (its own start is ignored) and stays inside the input |
| StringStream.ConvertDistance | Betokened/StringStream.swift:37-39 | the span of `distance` characters starting at the index, inside the input |
| StringStream.ConvertRangeIsDistance | Betokened/StringStream.swift:33-39 | the two `convert` overloads agree: converting a range equals converting its length |
| StringStream.ConvertPreservesText | Betokened/StringStream.swift:33-36 | for a range that starts at the beginning of the suffix, the converted span denotes the same characters in the whole input |
| Parsers.ParseString | Betokened/Parsers.swift:12-27 | applies iff `pattern` is a non-empty prefix of the unconsumed text; then reports `Ok(pattern, [i, i+|pattern|))` and sets the index to `i+|pattern|+1`, or traps when the match ends at the end of the input; otherwise not applicable with the stream unchanged; never `Err` |
| Parsers.ParseOneCharOf | Betokened/Parsers.swift:29-43 | applies iff not at end and the next character is in the set; then `Ok(c, [i, i+1))` with the index at `i+1`; otherwise not applicable and unchanged; never traps or fails |
| Parsers.ParseOneStringOf | Betokened/Parsers.swift:45-58 | not applicable iff no alternative applies (so an empty list never applies); otherwise the result is that of the first alternative in list order that applies, whether or not a later one matches more |
| Parsers.WhitespaceLoop | Betokened/Betokened.swift:175-187 | the loop consumes the maximal whitespace run from the index; after at least one turn it reports `Ok("", [start, end-1))`, otherwise it keeps what it was given |
| Parsers.ParseWhitespace | Betokened/Betokened.swift:171-189 | not applicable (stream unchanged) iff at end or the next character is not whitespace; otherwise it consumes exactly the maximal whitespace run and reports text `""` with the span one short of the run; never `Err` |
| Parsers.ParseStringSpanText | Betokened/Parsers.swift:17-20 | on a match, the span `string` reports is exactly the occurrence of the pattern in the whole input |
| Parsers.Parse | Betokened/Parsers.swift:12-58 | every built-in parser keeps the input text, leaves the stream unchanged when not applicable, never fails, and strictly advances the index whenever it succeeds; only the literal parsers can trap |
| Recognizers.Transform | Betokened/Functional.swift:12-27 | nil stays nil, an error passes through unchanged, and text `s` with span `r` becomes the token `f(s, r)`; a result without text becomes `Ok` with no token, and `f` is not used |
| Recognizers.TransformParser | Betokened/Functional.swift:29-39 | `transform(parse, f)` and `parse >> f` run the parser once, end where it ends, trap iff it traps, and map its result with `Transform` |
| Recognizers.WhitespaceRecognizer | Betokened/Recognizers.swift:12-23 | applies iff the whitespace parser applies, moves the stream as it does, and never yields a token |
| Recognizers.EndRecognizer | Betokened/Recognizers.swift:25-27 | always applies and never moves the index; `Ok` with no token iff at end, otherwise `Err(EndOfStringExpected(index))` |
| Recognizers.Recognize | Betokened/Tokenizer.swift:24-31 | every built-in recognizer keeps the input, never moves back, and leaves the stream unchanged when not applicable; away from the end an `Ok` strictly advances (so the scan terminates); only `end` fails, with `EndOfStringExpected` at the index, and `end` always applies |
| Tokenizer.FirstApplicable | Betokened/Tokenizer.swift:26-37 | a turn is not applicable iff no recognizer in the list applies; otherwise its result is the result of one of the recognizers |
| Tokenizer.FirstApplicableIs | Betokened/Tokenizer.swift:26-31 | the first recognizer in list order that applies decides the turn; the later ones are not consulted |
| Tokenizer.Scan | Betokened/Tokenizer.swift:21-41 | the scan keeps the input, never moves back, and its tokens extend the tokens gathered before (termination by `|input| - index`) |
| Tokenizer.ScanAtEnd | Betokened/Tokenizer.swift:24-40 | on a stream already at its end the result is `Ok([])` and no recognizer runs |
| Tokenizer.ScanContinues | Betokened/Tokenizer.swift:29-31 | an `Ok` turn appends its token if there is one and restarts from the first recognizer at the new index |
| Tokenizer.ScanFails | Betokened/Tokenizer.swift:32-34 | an `Err` turn ends the scan with that same error, and the tokens gathered so far are dropped |
| Tokenizer.ScanTraps | Betokened/Parsers.swift:21 | a turn that traps makes the whole scan trap |
| Tokenizer.ScanStalls | Betokened/Tokenizer.swift:25-40 | when no recognizer applies away from the end, the scan stops and returns `Ok` with the tokens so far; leftover input is not an error |
| Tokenizer.TryRecognizers | Betokened/Tokenizer.swift:26-37 | the inner `for` loop's result is the first applicable recognizer's result, or not applicable |
| Tokenizer.Tokenize | Betokened/Tokenizer.swift:21-41 | the library's labelled loop (with its never-set `recognized` flag) computes exactly the reference scan from no tokens |
| Tokenizer.ScanAccumulates | Betokened/Tokenizer.swift:23-31 | tokens gathered in earlier turns stay in front, in order, and have no influence on the rest of the scan |
| Tokenizer.ScanErrorsComeFromEnd | Betokened/Result.swift:12-15 | a scan that fails does so with `EndOfStringExpected`, and only if the list contains `end`; `UnterminatedDelimiter` never arises |
| Tokenizer.EndReachedFails | Betokened/Recognizers.swift:25-27 | an `end` recognizer that the scan reaches always fails, since turns run only away from the end |
| Tokenizer.RecognizersAfterEndUnreachable | Betokened/Tokenizer.swift:26-31 | a turn over the list equals a turn over the list cut just after its first `end`, so the recognizers after `end` are never tried |
| Combine.CombineRecognizers | Betokened/Functional.swift:41-43 | combining two recognizers gives the two-element list with the left one first |
| Combine.CombineTokenizers | Betokened/Functional.swift:45-47 | combining two tokenizers keeps all of the left one's recognizers in front and all of the right one's after them |
| Combine.Prepend | Betokened/Functional.swift:49-51 | combining a recognizer with a tokenizer puts the recognizer in front |
| Combine.Append | Betokened/Functional.swift:53-55 | combining a tokenizer with a recognizer puts the recognizer at the back |
| Combine.CombineAssociative | Betokened/Functional.swift:61-63 | combining tokenizers is associative |
| Combine.CombinePrecedence | Betokened/Functional.swift:45-47 | in a combined tokenizer the turn is decided by the left operand whenever one of its recognizers applies, and by the right operand only when none does |
| Scenarios.Watusi | BetokenedTests/BetokenedTests.swift:19-20 | the test's tokenizer (whitespace, then `string("gregory") >> f`, then `end`) is the list whitespace, literal, end in that order |
| Scenarios.WatusiScenario | BetokenedTests/BetokenedTests.swift:18-21 | on "   gregory  " the scan succeeds with the single token `f("gregory", [3, 10))` and ends at index 12 without reaching `end` |
| Scenarios.WholeInputLiteralTraps | Betokened/Parsers.swift:19-21 | a literal applied to an input equal to it traps instead of consuming it whole |

## Left out

- The delimiter and quote scanner and the anchored regular-expression parser are not part of this model. The Swift files contain no such code, and nothing produces `UnterminatedDelimiter`.
- Recognizers.Recognize: `transform` / `>>` can also take a parser result that was already computed (Betokened/Functional.swift:12-27, 33-35). The recognizer it builds ignores the stream and always returns that result. It is not in the closed set. In a tokenizer, when that result is `Ok`, the recognizer succeeds at every position without moving the index, so `tokenize` loops forever. The progress and termination claims therefore cover only the built-in recognizers in the closed set. `Recognizers.Transform` models the mapping that this recognizer performs.
- Recognizers written as arbitrary user closures are left out, because termination cannot be proved for them. Parsers and recognizers are a closed datatype; only the token mapping `f` is free.
- Foundation is not modelled. Characters are Dafny `char`s (no grapheme clusters and no Unicode equivalence), and `String.Index` is a character offset. Whitespace is the list of code points that Apple documents for `whitespaceAndNewlineCharacterSet`: U+0009 to U+000D, U+0085 and general category Z. Foundation's actual set may differ.
- Parsers.ParseString: `rangeOfString` followed by the start-of-suffix test is modelled as a prefix test. An empty pattern is not applicable, which matches Foundation's result for an empty needle.
- StringStream.ConvertRange and StringStream.ConvertDistance: Swift's `advance` traps beyond the end of the input, and a negative distance makes an invalid range. Both are excluded by preconditions that every internal caller meets.
- Recognizers.WhitespaceRecognizer: its branch that passes on a parser `Err` is modelled, but it cannot be reached, because the whitespace parser never fails.
- The mutable `StringStream` object becomes a value returned next to each result. Returning it makes the "only the index moves" property explicit in every contract.
- The operators `*`, `>>` and `|` are named functions. `Cell<T>?` is `Option<T>`. `p >> f` is the recognizer value `Transformed(p, f)`.
- The duplicate definitions in Betokened/Betokened.swift are not modelled. They are older copies, and the split files replace them. The copies differ from the split files: their `ParserResult.Ok` text is not optional, and their `transform` has no branch for a missing text, so every `Ok` produced a token.
- Running a tokenizer twice on equal inputs gives equal results. This holds because every member is a function, so it has no lemma of its own.
- The test harness is left out: `XCTest`, `UIKit`, `println`. The external `Prosumma` module is not part of this model.
