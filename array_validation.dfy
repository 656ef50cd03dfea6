/** `IsEmpty` for fixed-size arrays `[T; N]`, crates/eventric-core/src/validation/array.rs.
    An array of type `[T; N]` is a sequence whose length is the type's `N`. */
module ArrayValidation {

  import opened Validation
  import Tokens
  import VecValidation

  /** `IsEmpty` on a `[T; N]`: objects exactly when `N` is zero; the only
      answers are `None` and the token "empty". */
  function IsEmpty<T>(n: nat, value: seq<T>): (r: Option<string>)
    requires |value| == n
    ensures r == Some(Tokens.Empty) <==> n == 0
    ensures r == None <==> n > 0
  {
    if |value| == 0 then Some(Tokens.Empty) else None
  }

  /** The answer is fixed by the array type: any two arrays of the same `N`
      get the same answer, whatever their elements. */
  lemma OnlyLengthMatters<T>(n: nat, a: seq<T>, b: seq<T>)
    requires |a| == n && |b| == n
    ensures IsEmpty(n, a) == IsEmpty(n, b)
  {
  }

  /** An array gets the same answer as a vector holding the same elements. */
  lemma AgreesWithVec<T>(n: nat, value: seq<T>)
    requires |value| == n
    ensures IsEmpty(n, value) == VecValidation.IsEmpty(value)
  {
  }

  /** The assertions of the tests: `[1, 2, 3]`, `["hello"]` and `[42]` pass;
      the zero-length array fails with "empty". */
  lemma IsEmptyTests()
    ensures IsEmpty(3, [1, 2, 3]) == None
    ensures IsEmpty<int>(0, []) == Some("empty")
    ensures IsEmpty(1, ["hello"]) == None
    ensures IsEmpty(1, [42]) == None
  {
  }
}
