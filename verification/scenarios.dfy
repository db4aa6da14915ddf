/** The library's own usage scenario, worked through the model. */
module Scenarios {
  import opened Wrappers
  import opened StringStream
  import opened Result
  import Parsers
  import opened Recognizers
  import opened Tokenizer
  import opened Combine

  const Input: string := "   gregory  "

  /** The leading run of three blanks: the index moves to 3, the span is [0, 2). */
  lemma LeadingBlanks()
    ensures Parsers.ParseWhitespace(Stream(Input, 0)) ==
      Returned(Some(ParserResult.Ok(Some(""), Span(0, 2))), Stream(Input, 3))
  {
    assert Input[0] == ' ' && Input[1] == ' ' && Input[2] == ' ' && Input[3] == 'g';
    var found := Some(ParserResult.Ok(Some(""), Span(0, 2)));
    assert Parsers.WhitespaceLoop(Stream(Input, 3), 0, found) == Returned(found, Stream(Input, 3));
    assert Parsers.WhitespaceLoop(Stream(Input, 2), 0, Some(ParserResult.Ok(Some(""), Span(0, 1))))
      == Parsers.WhitespaceLoop(Stream(Input, 3), 0, found);
  }

  /** The literal at index 3: span [3, 10), index moved to 11. */
  lemma LiteralAtThree()
    ensures Parsers.ParseString("gregory", Stream(Input, 3)) ==
      Returned(Some(ParserResult.Ok(Some("gregory"), Span(3, 10))), Stream(Input, 11))
  {
    assert Rest(Stream(Input, 3)) == "gregory  ";
    assert "gregory" <= Rest(Stream(Input, 3));
  }

  /** The final blank: the index reaches the end, the span is [11, 11). */
  lemma TrailingBlank()
    ensures Parsers.ParseWhitespace(Stream(Input, 11)) ==
      Returned(Some(ParserResult.Ok(Some(""), Span(11, 11))), Stream(Input, 12))
  {
    assert Parsers.IsWhitespace(Input[11]);
  }

  /** The scenario's tokenizer, `whitespace | string("gregory") >> f | end`. */
  function Watusi<T>(f: (string, Span) -> T): (t: Tokenizer<T>)
    ensures t.recognizers == [Recognizer.Whitespace, Transformed(Parsers.Literal("gregory"), f), End]
  {
    Append(CombineRecognizers(Recognizer.Whitespace, Transformed(Parsers.Literal("gregory"), f)), End)
  }

  /** First turn: `whitespace` skips the leading run, no token. */
  lemma WatusiTurn1<T>(f: (string, Span) -> T)
    ensures Scan(Watusi(f).recognizers, Stream(Input, 0), []) == Scan(Watusi(f).recognizers, Stream(Input, 3), [])
  {
    var rs := Watusi(f).recognizers;
    LeadingBlanks();
    assert Recognize(rs[0], Stream(Input, 0)) == Returned(Some(RecognizerResult.Ok(None)), Stream(Input, 3));
    FirstApplicableIs(rs, Stream(Input, 0), 0);
    ScanContinues(rs, Stream(Input, 0), []);
  }

  /** Second turn: `whitespace` declines at 'g', the literal yields the token. */
  lemma WatusiTurn2<T>(f: (string, Span) -> T)
    ensures Scan(Watusi(f).recognizers, Stream(Input, 3), []) ==
      Scan(Watusi(f).recognizers, Stream(Input, 11), [f("gregory", Span(3, 10))])
  {
    var rs := Watusi(f).recognizers;
    var token := f("gregory", Span(3, 10));
    assert !Parsers.IsWhitespace(Input[3]);
    assert Inapplicable(Recognize(rs[0], Stream(Input, 3)));
    LiteralAtThree();
    assert Recognize(rs[1], Stream(Input, 3)) == Returned(Some(RecognizerResult.Ok(Some(token))), Stream(Input, 11));
    FirstApplicableIs(rs, Stream(Input, 3), 1);
    ScanContinues(rs, Stream(Input, 3), []);
    assert [] + [token] == [token];
  }

  /** Third turn: `whitespace` skips the last blank and the input is exhausted. */
  lemma WatusiTurn3<T>(f: (string, Span) -> T, acc: seq<T>)
    ensures Scan(Watusi(f).recognizers, Stream(Input, 11), acc) ==
      Returned(TokenizerResult.Ok(acc), Stream(Input, 12))
  {
    var rs := Watusi(f).recognizers;
    TrailingBlank();
    assert Recognize(rs[0], Stream(Input, 11)) == Returned(Some(RecognizerResult.Ok(None)), Stream(Input, 12));
    FirstApplicableIs(rs, Stream(Input, 11), 0);
    ScanContinues(rs, Stream(Input, 11), acc);
  }

  /** The whole scan over "   gregory  ": the leading run is skipped, the
      literal yields one token with span [3, 10), the blank after it is
      swallowed by the literal's advance, the last blank is skipped, and the
      scan stops at the end without ever reaching `end`. */
  lemma WatusiScenario<T>(f: (string, Span) -> T)
    ensures Scan(Watusi(f).recognizers, New(Input), []) ==
      Returned(TokenizerResult.Ok([f("gregory", Span(3, 10))]), Stream(Input, 12))
  {
    WatusiTurn1(f);
    WatusiTurn2(f);
    WatusiTurn3(f, [f("gregory", Span(3, 10))]);
  }

  /** A literal never consumes an input equal to it: the advance one past
      the match runs off the end of the input and traps. */
  lemma WholeInputLiteralTraps(pattern: string)
    requires 0 < |pattern|
    ensures Parsers.ParseString(pattern, New(pattern)).Trapped?
  {
  }
}
