/** The primitive parsers: `string`, `oneCharOf`, `oneStringOf` and the
    `whitespace` parser. Each tests the text at the index and, when it
    applies, moves the index; when it does not apply it leaves the index
    where it was. None of them ever returns `Err`. */
module Parsers {
  import opened Wrappers
  import opened StringStream
  import opened Result

  /** The documented members of Foundation's whitespace-and-newline
      character set: U+0009 to U+000D, U+0085 and the Unicode space, line
      and paragraph separators (general category Z). */
  predicate IsWhitespace(c: char) {
    var n := c as int;
    || (0x09 <= n <= 0x0D)
    || n == 0x20 || n == 0x85 || n == 0xA0 || n == 0x1680
    || (0x2000 <= n <= 0x200A)
    || n == 0x2028 || n == 0x2029 || n == 0x202F || n == 0x205F || n == 0x3000
  }

  /** `string(pattern)`. The remaining text must begin with a non-empty
      `pattern`. The reported span covers the match, but the index is then set
      one past the span's end, so the character after the match is
      swallowed; when the match reaches the end of the input that advance
      traps. */
  function ParseString(pattern: string, s: Stream): (r: Step<ParserResult>)
    requires s.Valid()
    ensures r.Trapped? <==> 0 < |pattern| && pattern <= Rest(s) && s.index + |pattern| == |s.storage|
    ensures r.Returned? ==> r.after.Valid() && r.after.storage == s.storage
    ensures Inapplicable(r) <==> !(0 < |pattern| && pattern <= Rest(s))
    ensures Inapplicable(r) ==> r.after == s
    ensures r.Returned? && r.value.Some? ==>
      && r.value.value == ParserResult.Ok(Some(pattern), Span(s.index, s.index + |pattern|))
      && r.after.index == s.index + |pattern| + 1
  {
    if AtEnd(s) then Returned(None, s)
    else
      var rest := Rest(s);
      // rangeOfString finds the first occurrence; it is at the start exactly
      // when `pattern` is a prefix of the remaining text.
      if 0 < |pattern| && pattern <= rest then
        var range := ConvertRange(s, Span(0, |pattern|));
        if range.end == |s.storage| then Trapped
        else Returned(Some(ParserResult.Ok(Some(pattern), range)), s.(index := range.end + 1))
      else Returned(None, s)
  }

  /** The span `string` reports, which `convert` rebases from the suffix to
      the whole input, covers exactly the matched pattern in the input. */
  lemma ParseStringSpanText(pattern: string, s: Stream)
    requires s.Valid()
    requires ParseString(pattern, s).Returned? && ParseString(pattern, s).value.Some?
    ensures var range := ParseString(pattern, s).value.value.range;
      range.end <= |s.storage| && s.storage[range.start..range.end] == pattern
  {
    ConvertPreservesText(s, Span(0, |pattern|));
    assert Rest(s)[0..|pattern|] == pattern;
  }

  /** `oneCharOf(chars)`: the first remaining character, if it is one of `chars`. */
  function ParseOneCharOf(chars: string, s: Stream): (r: Step<ParserResult>)
    requires s.Valid()
    ensures r.Returned? && r.after.Valid() && r.after.storage == s.storage
    ensures Inapplicable(r) <==> AtEnd(s) || s.storage[s.index] !in chars
    ensures Inapplicable(r) ==> r.after == s
    ensures r.value.Some? ==>
      && r.value.value == ParserResult.Ok(Some([s.storage[s.index]]), Span(s.index, s.index + 1))
      && r.after.index == s.index + 1
  {
    if AtEnd(s) then Returned(None, s)
    else
      var c := Rest(s)[0];
      if c in chars then
        Returned(Some(ParserResult.Ok(Some([c]), Span(s.index, s.index + 1))), s.(index := s.index + 1))
      else Returned(None, s)
  }

  /** `oneStringOf(strings)` (both the array and the variadic form): the
      alternatives are tried in order and the first one that applies wins,
      whether or not a later one would match more text. */
  function ParseOneStringOf(strings: seq<string>, s: Stream): (r: Step<ParserResult>)
    requires s.Valid()
    ensures Inapplicable(r) <==> forall k :: 0 <= k < |strings| ==> Inapplicable(ParseString(strings[k], s))
    ensures Inapplicable(r) ==> r.after == s
    ensures !Inapplicable(r) ==>
      exists k :: 0 <= k < |strings| && r == ParseString(strings[k], s) &&
        forall j :: 0 <= j < k ==> Inapplicable(ParseString(strings[j], s))
  {
    if |strings| == 0 then Returned(None, s)
    else
      var first := ParseString(strings[0], s);
      if Inapplicable(first) then
        var r := ParseOneStringOf(strings[1..], s);
        assert forall k :: 1 <= k < |strings| ==> strings[k] == strings[1..][k - 1];
        r
      else first
  }

  /** The loop of the `whitespace` parser, one character per turn. `found`
      is the result of the previous turn; each turn reports the span from
      `start` to the index as it was BEFORE that turn's advance. */
  function WhitespaceLoop(s: Stream, start: nat, found: Option<ParserResult>): (r: Step<ParserResult>)
    requires s.Valid() && start <= s.index
    ensures r.Returned? && r.after.Valid() && r.after.storage == s.storage
    ensures s.index <= r.after.index
    ensures forall k :: s.index <= k < r.after.index ==> IsWhitespace(s.storage[k])
    ensures r.after.index == |s.storage| || !IsWhitespace(s.storage[r.after.index])
    ensures r.after.index == s.index ==> r.value == found
    ensures r.after.index > s.index ==>
      r.value == Some(ParserResult.Ok(Some(""), Span(start, r.after.index - 1)))
    decreases |s.storage| - s.index
  {
    if AtEnd(s) then Returned(found, s)
    else if IsWhitespace(Rest(s)[0]) then
      WhitespaceLoop(s.(index := s.index + 1), start, Some(ParserResult.Ok(Some(""), Span(start, s.index))))
    else Returned(found, s)
  }

  /** The `whitespace` parser: consumes the maximal run of whitespace at the
      index. A run of n characters from `i` moves the index to `i + n` but
      reports the span `[i, i + n - 1)`, one short. */
  function ParseWhitespace(s: Stream): (r: Step<ParserResult>)
    requires s.Valid()
    ensures r.Returned? && r.after.Valid() && r.after.storage == s.storage
    ensures Inapplicable(r) <==> AtEnd(s) || !IsWhitespace(s.storage[s.index])
    ensures Inapplicable(r) ==> r.after == s
    ensures r.value.Some? ==>
      && s.index < r.after.index
      && (forall k :: s.index <= k < r.after.index ==> IsWhitespace(s.storage[k]))
      && (r.after.index == |s.storage| || !IsWhitespace(s.storage[r.after.index]))
      && r.value.value == ParserResult.Ok(Some(""), Span(s.index, r.after.index - 1))
  {
    WhitespaceLoop(s, s.index, None)
  }

  /** The built-in parsers as a closed set, so that their progress can be proved. */
  datatype Parser =
    | Literal(pattern: string)
    | OneCharOf(chars: string)
    | OneStringOf(strings: seq<string>)
    | Whitespace

  function Parse(p: Parser, s: Stream): (r: Step<ParserResult>)
    requires s.Valid()
    ensures r.Returned? ==> r.after.Valid() && r.after.storage == s.storage
    ensures Inapplicable(r) ==> r.after == s
    ensures r.Returned? && r.value.Some? ==> r.value.value.Ok? && r.after.index > s.index
    ensures r.Trapped? ==> p.Literal? || p.OneStringOf?
  {
    match p
    case Literal(pattern) => ParseString(pattern, s)
    case OneCharOf(chars) => ParseOneCharOf(chars, s)
    case OneStringOf(strings) => ParseOneStringOf(strings, s)
    case Whitespace => ParseWhitespace(s)
  }
}
