/** Bytes and the byte classes the tokenizer dispatches on. */
module Ascii {

  /** One octet of a transport chunk (a `Buffer` element). */
  newtype byte = x: int | 0 <= x < 256

  /** Line feed, carriage return, the NUL frame terminator, the colon and the space. */
  const NL: byte := 10
  const NR: byte := 13
  const EOF: byte := 0
  const D2: byte := 58
  const SP: byte := 32

  /** Printable ASCII, space included: what a header value may hold. */
  function IsPrint(ch: byte): (r: bool)
    ensures r ==> ch != NL && ch != NR && ch != EOF
  {
    32 <= ch <= 126
  }

  /** Printable ASCII without the space: what a header key may hold. */
  function IsPrintNoSpace(ch: byte): (r: bool)
    ensures r <==> IsPrint(ch) && ch != SP
  {
    32 < ch <= 126
  }

  /** `A`..`Z`: what a method name may hold. */
  function IsAsciiUpper(ch: byte): (r: bool)
    ensures r ==> IsPrintNoSpace(ch) && ch != D2
  {
    65 <= ch <= 90
  }
}
