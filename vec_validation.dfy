/** `IsEmpty` for vectors, crates/eventric-utils/src/validation/vec.rs.
    A `Vec<T>` is a sequence. */
module VecValidation {

  import opened Validation
  import Tokens

  /** `IsEmpty`: objects exactly when the vector has no elements; the only
      answers are `None` and the token "empty". */
  function IsEmpty<T>(value: seq<T>): (r: Option<string>)
    ensures r == Some(Tokens.Empty) <==> |value| == 0
    ensures r == None <==> |value| > 0
  {
    if |value| == 0 then Some(Tokens.Empty) else None
  }

  /** Only the number of elements matters, never their values. */
  lemma OnlyLengthMatters<T>(a: seq<T>, b: seq<T>)
    requires |a| == |b|
    ensures IsEmpty(a) == IsEmpty(b)
  {
  }

  /** The assertions of the tests: integer, string and single-element vectors
      pass; an empty vector, and one emptied by `clear()`, fails with "empty". */
  lemma IsEmptyTests()
    ensures IsEmpty([1, 2, 3]) == None
    ensures IsEmpty<int>([]) == Some("empty")
    ensures IsEmpty(["hello"]) == None
    ensures IsEmpty([42]) == None
    ensures IsEmpty([1, 2, 3][..0]) == Some("empty")
  {
  }
}
