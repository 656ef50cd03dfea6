/** The stable violation tokens of the built-in validator catalogue.
    Downstream code may match on these strings, so they are kept in one place. */
module Tokens {

  /** Returned by every `IsEmpty` validator (string, vector, sets, arrays). */
  const Empty: string := "empty"

  /** Returned by the string validator `ControlCharacters`. */
  const ControlCharacters: string := "control characters"

  /** Returned by the string validator `PrecedingWhitespace`. */
  const PrecedingWhitespace: string := "preceding whitespace"

  /** Returned by the string validator `TrailingWhitespace`. */
  const TrailingWhitespace: string := "trailing whitespace"
}
