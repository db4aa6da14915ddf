/** The optional type used wherever the library writes `T?`: a parser or a
    recognizer that does not apply, a parse result without text, and a
    recognizer result without a token (the library's `Cell<T>?`). */
module Wrappers {

  datatype Option<+T> = None | Some(value: T)

  /** The postfix `*` of the library: boxes a token so that "a token" can be
      told apart from "no token". */
  function Wrap<T>(x: T): (c: Option<T>)
    ensures c.Some?
    ensures Unwrap(c) == x
  {
    Some(x)
  }

  /** The prefix `*` of the library: reads the token back out of its box. */
  function Unwrap<T>(c: Option<T>): (x: T)
    requires c.Some?
    ensures c == Some(x)
  {
    c.value
  }
}
