/** The cursor of the library: an input text that never changes and one
    index into it that only the parsers move. Indices are character offsets;
    Swift's opaque `String.Index` becomes a `nat`. */
module StringStream {

  /** A half-open range `[start, end)` of character offsets. */
  datatype Span = Span(start: nat, end: nat) {
    predicate Valid() { start <= end }

    function Length(): nat
      requires Valid()
    {
      end - start
    }
  }

  /** `storage` is the whole input, `index` the first unconsumed character. */
  datatype Stream = Stream(storage: string, index: nat) {
    predicate Valid() { index <= |storage| }
  }

  /** `init(_:)`; the three literal-convertible initialisers all delegate to it. */
  function New(text: string): (s: Stream)
    ensures s.Valid()
    ensures s.storage == text && s.index == 0
    ensures Rest(s) == text
    ensures AtEnd(s) <==> |text| == 0
  {
    Stream(text, 0)
  }

  /** The `string` property: the unconsumed suffix of the input. */
  function Rest(s: Stream): (r: string)
    requires s.Valid()
    ensures |r| == |s.storage| - s.index
    ensures s.storage == s.storage[..s.index] + r
  {
    s.storage[s.index..]
  }

  /** The `atEnd` property. */
  function AtEnd(s: Stream): (b: bool)
    requires s.Valid()
    ensures b <==> Rest(s) == []
  {
    s.index == |s.storage|
  }

  /** `convert(_: Range)`: a range measured against the unconsumed suffix is
      rebased to the current index. Only its length is used, so its start
      is ignored. Swift's `advance` traps beyond the end of the input, which
      the precondition rules out. */
  function ConvertRange(s: Stream, range: Span): (r: Span)
    requires s.Valid() && range.Valid()
    requires s.index + range.Length() <= |s.storage|
    ensures r.Valid() && r.end <= |s.storage|
    ensures r.start == s.index
    ensures r.Length() == range.Length()
  {
    Span(s.index, s.index + (range.end - range.start))
  }

  /** `convert(_: Distance)`: the span of `distance` characters at the index. */
  function ConvertDistance(s: Stream, distance: nat): (r: Span)
    requires s.Valid()
    requires s.index + distance <= |s.storage|
    ensures r.Valid() && r.end <= |s.storage|
    ensures r.start == s.index
    ensures r.Length() == distance
  {
    Span(s.index, s.index + distance)
  }

  /** Both overloads of `convert` agree: a range converts to the span of its length. */
  lemma ConvertRangeIsDistance(s: Stream, range: Span)
    requires s.Valid() && range.Valid()
    requires s.index + range.Length() <= |s.storage|
    ensures ConvertRange(s, range) == ConvertDistance(s, range.Length())
  {
  }

  /** A range that starts at the beginning of the suffix denotes, once
      converted, the same text within the whole input. */
  lemma ConvertPreservesText(s: Stream, range: Span)
    requires s.Valid() && range.Valid()
    requires range.start == 0 && range.end <= |Rest(s)|
    ensures s.index + range.Length() <= |s.storage|
    ensures var r := ConvertRange(s, range);
      s.storage[r.start..r.end] == Rest(s)[range.start..range.end]
  {
    var r := ConvertRange(s, range);
    forall k | 0 <= k < range.end
      ensures s.storage[r.start..r.end][k] == Rest(s)[range.start..range.end][k]
    {
      assert s.storage[s.index + k] == Rest(s)[k];
    }
  }
}
