/** The tokenizer: an ordered list of recognizers and the scan that drives
    them over a stream. */
module Tokenizer {
  import opened Wrappers
  import opened StringStream
  import opened Result
  import opened Recognizers

  /** `Tokenizer(recognizers)`; the variadic initialiser builds the same list. */
  datatype Tokenizer<T> = Tokenizer(recognizers: seq<Recognizer<T>>)

  /** One turn of the scan: recognizers are tried in list order at the same
      index, and the first one that applies decides the turn. (A recognizer
      that does not apply leaves the index unchanged, so every one of them
      sees the same stream.) */
  function FirstApplicable<T>(rs: seq<Recognizer<T>>, s: Stream): (r: Step<RecognizerResult<T>>)
    requires s.Valid()
    ensures r.Returned? ==> r.after.Valid() && r.after.storage == s.storage && s.index <= r.after.index
    ensures Inapplicable(r) <==> forall k :: 0 <= k < |rs| ==> Inapplicable(Recognize(rs[k], s))
    ensures Inapplicable(r) ==> r.after == s
    ensures !Inapplicable(r) ==> exists k :: 0 <= k < |rs| && r == Recognize(rs[k], s)
    ensures !AtEnd(s) && r.Returned? && r.value.Some? && r.value.value.Ok? ==> r.after.index > s.index
  {
    if |rs| == 0 then Returned(None, s)
    else
      var first := Recognize(rs[0], s);
      if Inapplicable(first) then
        var r := FirstApplicable(rs[1..], s);
        assert forall k :: 1 <= k < |rs| ==> rs[k] == rs[1..][k - 1];
        r
      else first
  }

  /** The recognizer at `k` decides the turn when every one before it does
      not apply and it does. */
  lemma {:induction false} FirstApplicableIs<T>(rs: seq<Recognizer<T>>, s: Stream, k: nat)
    requires s.Valid() && k < |rs|
    requires forall j :: 0 <= j < k ==> Inapplicable(Recognize(rs[j], s))
    requires !Inapplicable(Recognize(rs[k], s))
    ensures FirstApplicable(rs, s) == Recognize(rs[k], s)
    decreases k
  {
    if k > 0 {
      assert Inapplicable(Recognize(rs[0], s));
      assert forall j :: 0 <= j < k - 1 ==> rs[1..][j] == rs[j + 1];
      FirstApplicableIs(rs[1..], s, k - 1);
    }
  }

  /** The scan of `tokenize`, with `acc` the tokens gathered so far. It
      stops successfully at the end of the input and also, silently, when no
      recognizer applies; the first error discards the gathered tokens. */
  function Scan<T>(rs: seq<Recognizer<T>>, s: Stream, acc: seq<T>): (r: Outcome<TokenizerResult<T>>)
    requires s.Valid()
    ensures r.Returned? ==> r.after.Valid() && r.after.storage == s.storage && s.index <= r.after.index
    ensures r.Returned? && r.value.Ok? ==> acc <= r.value.tokens
    decreases |s.storage| - s.index
  {
    if AtEnd(s) then Returned(TokenizerResult.Ok(acc), s)
    else
      match FirstApplicable(rs, s)
      case Trapped => Trapped
      case Returned(None, _) => Returned(TokenizerResult.Ok(acc), s)
      case Returned(Some(Err(error)), after) => Returned(TokenizerResult.Err(error), after)
      case Returned(Some(Ok(token)), after) =>
        Scan(rs, after, if token.Some? then acc + [Unwrap(token)] else acc)
  }

  /** The scan returns at once, with no tokens, on a stream already at its end. */
  lemma ScanAtEnd<T>(rs: seq<Recognizer<T>>, s: Stream)
    requires s.Valid() && AtEnd(s)
    ensures Scan(rs, s, []) == Returned(TokenizerResult.Ok([]), s)
  {
  }

  /** A turn that succeeds appends its token, if any, and the scan restarts
      from the first recognizer at the new index. */
  lemma ScanContinues<T>(rs: seq<Recognizer<T>>, s: Stream, acc: seq<T>)
    requires s.Valid() && !AtEnd(s)
    requires FirstApplicable(rs, s).Returned?
    requires FirstApplicable(rs, s).value.Some? && FirstApplicable(rs, s).value.value.Ok?
    ensures var step := FirstApplicable(rs, s);
      var token := step.value.value.token;
      Scan(rs, s, acc) == Scan(rs, step.after, if token.Some? then acc + [token.value] else acc)
  {
  }

  /** A turn that fails ends the scan with that error; the tokens gathered
      so far are dropped. */
  lemma ScanFails<T>(rs: seq<Recognizer<T>>, s: Stream, acc: seq<T>)
    requires s.Valid() && !AtEnd(s)
    requires FirstApplicable(rs, s).Returned?
    requires FirstApplicable(rs, s).value.Some? && FirstApplicable(rs, s).value.value.Err?
    ensures var step := FirstApplicable(rs, s);
      Scan(rs, s, acc) == Returned(TokenizerResult.Err(step.value.value.error), step.after)
  {
  }

  /** A turn that traps makes the whole scan trap. */
  lemma ScanTraps<T>(rs: seq<Recognizer<T>>, s: Stream, acc: seq<T>)
    requires s.Valid() && !AtEnd(s)
    requires FirstApplicable(rs, s).Trapped?
    ensures Scan(rs, s, acc).Trapped?
  {
  }

  /** A turn in which no recognizer applies ends the scan successfully with
      the tokens gathered so far; the unconsumed input is not an error. */
  lemma ScanStalls<T>(rs: seq<Recognizer<T>>, s: Stream, acc: seq<T>)
    requires s.Valid() && !AtEnd(s)
    requires forall k :: 0 <= k < |rs| ==> Inapplicable(Recognize(rs[k], s))
    ensures Scan(rs, s, acc) == Returned(TokenizerResult.Ok(acc), s)
  {
  }

  /** The inner `for recognize in recognizers` loop of `tokenize`: the
      first recognizer whose result is not nil ends the loop. */
  method TryRecognizers<T>(rs: seq<Recognizer<T>>, s: Stream) returns (step: Step<RecognizerResult<T>>)
    requires s.Valid()
    ensures step == FirstApplicable(rs, s)
  {
    for i := 0 to |rs|
      invariant forall j :: 0 <= j < i ==> Inapplicable(Recognize(rs[j], s))
    {
      step := Recognize(rs[i], s);
      if !Inapplicable(step) {
        FirstApplicableIs(rs, s, i);
        return;
      }
    }
    step := Returned(None, s);
  }

  /** `tokenize(stream)` as the library writes it: a labelled `while` over
      the stream whose turns try the recognizers in order. A success
      restarts the list at the new index, an error breaks out of the loop,
      and since the `recognized` flag is never set, a turn in which nothing
      applies ends the scan. */
  method Tokenize<T>(t: Tokenizer<T>, s: Stream) returns (r: Outcome<TokenizerResult<T>>)
    requires s.Valid()
    ensures r == Scan(t.recognizers, s, [])
  {
    var stream := s;
    var failure: Option<Error> := None;
    var tokens: seq<T> := [];
    label tokenizing: while !AtEnd(stream)
      invariant stream.Valid() && stream.storage == s.storage
      invariant failure.None?
      invariant Scan(t.recognizers, stream, tokens) == Scan(t.recognizers, s, [])
      decreases |stream.storage| - stream.index
    {
      var recognized := false;
      var step := TryRecognizers(t.recognizers, stream);
      if step.Trapped? {
        ScanTraps(t.recognizers, stream, tokens);
        r := Trapped;
        return;
      }
      if step.value.Some? {
        var result := step.value.value;
        if result.Ok? {
          ScanContinues(t.recognizers, stream, tokens);
          if result.token.Some? {
            tokens := tokens + [Unwrap(result.token)];
          }
          stream := step.after;
          continue tokenizing;
        } else {
          ScanFails(t.recognizers, stream, tokens);
          failure := Some(result.error);
          stream := step.after;
          break tokenizing;
        }
      }
      ScanStalls(t.recognizers, stream, tokens);
      if !recognized {
        break;
      }
    }
    r := Returned(if failure.Some? then TokenizerResult.Err(failure.value) else TokenizerResult.Ok(tokens), stream);
  }

  /** Prepends `acc` to the tokens of a successful scan. */
  function Prefixed<T>(acc: seq<T>, o: Outcome<TokenizerResult<T>>): Outcome<TokenizerResult<T>> {
    match o
    case Returned(Ok(tokens), after) => Returned(TokenizerResult.Ok(acc + tokens), after)
    case _ => o
  }

  lemma PrefixedTwice<T>(a: seq<T>, b: seq<T>, o: Outcome<TokenizerResult<T>>)
    ensures Prefixed(a, Prefixed(b, o)) == Prefixed(a + b, o)
  {
    if o.Returned? && o.value.Ok? {
      assert a + (b + o.value.tokens) == (a + b) + o.value.tokens;
    }
  }

  /** The tokens gathered before a turn are kept, in order, ahead of the
      ones the rest of the scan produces, and do not influence it. */
  lemma {:induction false} ScanAccumulates<T>(rs: seq<Recognizer<T>>, s: Stream, acc: seq<T>)
    requires s.Valid()
    ensures Scan(rs, s, acc) == Prefixed(acc, Scan(rs, s, []))
    decreases |s.storage| - s.index
  {
    if AtEnd(s) {
      assert acc + [] == acc;
    } else {
      var step := FirstApplicable(rs, s);
      if step.Returned? && step.value.Some? && step.value.value.Ok? {
        var token := step.value.value.token;
        var next := if token.Some? then acc + [token.value] else acc;
        var first := if token.Some? then [token.value] else [];
        var rest := Scan(rs, step.after, []);
        ScanContinues(rs, s, acc);
        ScanContinues(rs, s, []);
        assert [] + first == first;
        ScanAccumulates(rs, step.after, next);
        ScanAccumulates(rs, step.after, first);
        assert next == acc + first;
        PrefixedTwice(acc, first, rest);
      } else if Inapplicable(step) {
        assert acc + [] == acc;
      }
    }
  }

  /** The only error a scan can end with is `EndOfStringExpected`, and only
      when the list holds an `end` recognizer: no recognizer of the library
      produces `UnterminatedDelimiter`. */
  lemma {:induction false} ScanErrorsComeFromEnd<T>(rs: seq<Recognizer<T>>, s: Stream, acc: seq<T>)
    requires s.Valid()
    requires Scan(rs, s, acc).Returned? && Scan(rs, s, acc).value.Err?
    ensures exists k :: 0 <= k < |rs| && rs[k].End?
    ensures Scan(rs, s, acc).value.error.EndOfStringExpected?
    decreases |s.storage| - s.index
  {
    var step := FirstApplicable(rs, s);
    if step.value.value.Ok? {
      var token := step.value.value.token;
      ScanErrorsComeFromEnd(rs, step.after, if token.Some? then acc + [token.value] else acc);
    } else {
      var k :| 0 <= k < |rs| && step == Recognize(rs[k], s);
    }
  }

  /** Since the scan only runs a turn away from the end of the input, an
      `end` recognizer that is reached always fails there. */
  lemma EndReachedFails<T>(rs: seq<Recognizer<T>>, s: Stream, k: nat)
    requires s.Valid() && !AtEnd(s)
    requires k < |rs| && rs[k].End?
    requires forall j :: 0 <= j < k ==> Inapplicable(Recognize(rs[j], s))
    ensures FirstApplicable(rs, s) == Returned(Some(RecognizerResult.Err(EndOfStringExpected(s.index))), s)
  {
    FirstApplicableIs(rs, s, k);
  }

  /** `end` always applies, so the recognizers listed after it are never tried. */
  lemma {:induction false} RecognizersAfterEndUnreachable<T>(rs: seq<Recognizer<T>>, s: Stream, k: nat)
    requires s.Valid()
    requires k < |rs| && rs[k].End?
    ensures FirstApplicable(rs, s) == FirstApplicable(rs[..k + 1], s)
    decreases k
  {
    if k > 0 && Inapplicable(Recognize(rs[0], s)) {
      assert rs[1..][k - 1].End?;
      RecognizersAfterEndUnreachable(rs[1..], s, k - 1);
      assert rs[..k + 1][1..] == rs[1..][..k];
    }
  }
}
