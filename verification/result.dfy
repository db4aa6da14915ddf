/** The three-level outcome model: parser, recognizer and tokenizer results
    share one error type, and the absence of a result ("not applicable") is
    an `Option` around them, distinct from both `Ok` and `Err`. */
module Result {
  import opened Wrappers
  import opened StringStream

  /** The two error kinds, each carrying the offset where it was detected.
      No parser of the library produces `UnterminatedDelimiter`. */
  datatype Error = UnterminatedDelimiter(at: nat) | EndOfStringExpected(at: nat)

  /** `Ok(None, range)` means "consumed, nothing to tokenize", which is not
      the same as `Ok(Some(""), range)`. */
  datatype ParserResult = Ok(text: Option<string>, range: Span) | Err(error: Error)

  /** `Ok(None)` means "consumed, no token". */
  datatype RecognizerResult<T> = Ok(token: Option<T>) | Err(error: Error)

  /** A completed scan carries its tokens in order. */
  datatype TokenizerResult<T> = Ok(tokens: seq<T>) | Err(error: Error)

  /** What running a piece of the library on a stream does: it returns a
      value and leaves the stream at `after`, or it hits a Swift runtime trap
      (advancing an index past the end of the input). */
  datatype Outcome<R> = Returned(value: R, after: Stream) | Trapped

  /** A parser or recognizer step: `None` is "not applicable". */
  type Step<R> = Outcome<Option<R>>

  predicate Inapplicable<R>(o: Step<R>) {
    o.Returned? && o.value.None?
  }
}
