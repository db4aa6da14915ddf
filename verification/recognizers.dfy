/** Recognizers turn parser results into token results: `transform` / `>>`
    wraps a parser and a mapping `f(text, span)`, and `whitespace` and `end`
    are recognizers that never produce a token. */
module Recognizers {
  import opened Wrappers
  import opened StringStream
  import opened Result
  import Parsers

  /** `transform` on an already computed parser result (the first overload
      in Functional.swift). The mapping sees exactly the parser's text and
      span, and is not applied when the parser consumed without text. */
  function Transform<T>(pr: Option<ParserResult>, f: (string, Span) -> T): (r: Option<RecognizerResult<T>>)
    ensures r.None? <==> pr.None?
    ensures r.Some? ==> (r.value.Err? <==> pr.value.Err?)
    ensures r.Some? && r.value.Err? ==> r.value.error == pr.value.error
    ensures r.Some? && r.value.Ok? ==> (r.value.token.Some? <==> pr.value.text.Some?)
    ensures r.Some? && r.value.Ok? && r.value.token.Some? ==>
      r.value.token.value == f(pr.value.text.value, pr.value.range)
  {
    match pr
    case None => None
    case Some(Ok(text, range)) =>
      if text.Some? then Some(RecognizerResult.Ok(Wrap(f(text.value, range))))
      else Some(RecognizerResult.Ok(None))
    case Some(Err(error)) => Some(RecognizerResult.Err(error))
  }

  /** `transform(parse, f)` and `parse >> f`: run the parser once on the
      stream, then map its result. */
  function TransformParser<T>(p: Parsers.Parser, f: (string, Span) -> T, s: Stream): (r: Step<RecognizerResult<T>>)
    requires s.Valid()
    ensures r.Trapped? <==> Parsers.Parse(p, s).Trapped?
    ensures r.Returned? ==>
      && r.after == Parsers.Parse(p, s).after
      && r.value == Transform(Parsers.Parse(p, s).value, f)
  {
    match Parsers.Parse(p, s)
    case Trapped => Trapped
    case Returned(pr, after) => Returned(Transform(pr, f), after)
  }

  /** The `whitespace` recognizer: applies exactly when the `whitespace`
      parser does, consumes what it consumes, and yields no token. */
  function WhitespaceRecognizer<T>(s: Stream): (r: Step<RecognizerResult<T>>)
    requires s.Valid()
    ensures r.Returned?
    ensures Inapplicable(r) <==> Inapplicable(Parsers.ParseWhitespace(s))
    ensures r.after == Parsers.ParseWhitespace(s).after
    ensures r.value.Some? ==> r.value.value == RecognizerResult.Ok(None)
  {
    match Parsers.ParseWhitespace(s)
    case Returned(pr, after) =>
      match pr
      case None => Returned(None, after)
      case Some(Ok(_, _)) => Returned(Some(RecognizerResult.Ok(None)), after)
      case Some(Err(error)) => Returned(Some(RecognizerResult.Err(error)), after)
  }

  /** The `end` recognizer: always applies, never moves the index, succeeds
      without a token at the end of the input and fails elsewhere. */
  function EndRecognizer<T>(s: Stream): (r: Step<RecognizerResult<T>>)
    requires s.Valid()
    ensures r.Returned? && r.value.Some? && r.after == s
    ensures r.value.value.Ok? <==> AtEnd(s)
    ensures r.value.value.Ok? ==> r.value.value.token.None?
    ensures r.value.value.Err? ==> r.value.value.error == EndOfStringExpected(s.index)
  {
    if AtEnd(s) then Returned(Some(RecognizerResult.Ok(None)), s)
    else Returned(Some(RecognizerResult.Err(EndOfStringExpected(s.index))), s)
  }

  /** The built-in recognizers as a closed set. `Transformed(p, f)` is the
      recognizer `p >> f`. */
  datatype Recognizer<T> =
    | Transformed(parser: Parsers.Parser, f: (string, Span) -> T)
    | Whitespace
    | End

  /** Apply a recognizer. Away from the end of the input, a recognizer that
      succeeds has consumed at least one character; only `end` fails. */
  function Recognize<T>(rec: Recognizer<T>, s: Stream): (r: Step<RecognizerResult<T>>)
    requires s.Valid()
    ensures r.Returned? ==> r.after.Valid() && r.after.storage == s.storage && s.index <= r.after.index
    ensures Inapplicable(r) ==> r.after == s
    ensures !AtEnd(s) && r.Returned? && r.value.Some? && r.value.value.Ok? ==> r.after.index > s.index
    ensures r.Returned? && r.value.Some? && r.value.value.Err? ==>
      rec.End? && r.value.value.error == EndOfStringExpected(s.index)
    ensures rec.End? ==> !Inapplicable(r)
  {
    match rec
    case Transformed(p, f) => TransformParser(p, f, s)
    case Whitespace => WhitespaceRecognizer(s)
    case End => EndRecognizer(s)
  }
}
