/** `combine` and its `|` spellings: tokenizers are built by list
    concatenation, so the left operand's recognizers are always tried first. */
module Combine {
  import opened StringStream
  import opened Result
  import opened Recognizers
  import opened Tokenizer

  /** `l | r` on two recognizers. */
  function CombineRecognizers<T>(l: Recognizer<T>, r: Recognizer<T>): (t: Tokenizer<T>)
    ensures |t.recognizers| == 2 && t.recognizers[0] == l && t.recognizers[1] == r
  {
    Tokenizer([l, r])
  }

  /** `a | b` on two tokenizers. */
  function CombineTokenizers<T>(a: Tokenizer<T>, b: Tokenizer<T>): (t: Tokenizer<T>)
    ensures |t.recognizers| == |a.recognizers| + |b.recognizers|
    ensures a.recognizers <= t.recognizers
    ensures t.recognizers[|a.recognizers|..] == b.recognizers
  {
    Tokenizer(a.recognizers + b.recognizers)
  }

  /** `r | t`: the recognizer goes in front. */
  function Prepend<T>(r: Recognizer<T>, t: Tokenizer<T>): (u: Tokenizer<T>)
    ensures u.recognizers == [r] + t.recognizers
  {
    CombineTokenizers(Tokenizer([r]), t)
  }

  /** `t | r`: the recognizer goes at the back. */
  function Append<T>(t: Tokenizer<T>, r: Recognizer<T>): (u: Tokenizer<T>)
    ensures u.recognizers == t.recognizers + [r]
  {
    CombineTokenizers(t, Tokenizer([r]))
  }

  /** `|` on tokenizers is associative. */
  lemma CombineAssociative<T>(a: Tokenizer<T>, b: Tokenizer<T>, c: Tokenizer<T>)
    ensures CombineTokenizers(CombineTokenizers(a, b), c) == CombineTokenizers(a, CombineTokenizers(b, c))
  {
  }

  /** In `a | b` the turn is decided by `a` whenever one of its recognizers
      applies, and by `b` only when none does: precedence is list order,
      never the longest match. */
  lemma {:induction false} CombinePrecedence<T>(a: Tokenizer<T>, b: Tokenizer<T>, s: Stream)
    requires s.Valid()
    ensures var first := FirstApplicable(a.recognizers, s);
      FirstApplicable(CombineTokenizers(a, b).recognizers, s) ==
        if Inapplicable(first) then FirstApplicable(b.recognizers, s) else first
    decreases |a.recognizers|
  {
    var rs := a.recognizers;
    if |rs| > 0 {
      var tail := Tokenizer(rs[1..]);
      CombinePrecedence(tail, b, s);
      assert CombineTokenizers(a, b).recognizers[1..] == CombineTokenizers(tail, b).recognizers;
    } else {
      assert CombineTokenizers(a, b).recognizers == b.recognizers;
    }
  }
}
