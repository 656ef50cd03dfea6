/** `IsEmpty` for ordered tree sets, crates/eventric-utils/src/validation/b_tree_set.rs.
    The tree's ordering plays no part in emptiness, so a `BTreeSet<T>` is a set. */
module BTreeSetValidation {

  import opened Validation
  import Tokens

  /** `IsEmpty`: objects exactly when the set has no elements; the only
      answers are `None` and the token "empty". */
  function IsEmpty<T>(value: set<T>): (r: Option<string>)
    ensures r == Some(Tokens.Empty) <==> |value| == 0
    ensures r == None <==> |value| > 0
  {
    if |value| == 0 then Some(Tokens.Empty) else None
  }

  /** Clearing any set, `value.clear()`, leaves one that fails with "empty". */
  lemma ClearedFails<T>(value: set<T>)
    ensures IsEmpty(value - value) == Some(Tokens.Empty)
  {
    assert value - value == {};
  }

  /** The assertions of the tests: integer, string and singleton sets pass;
      an empty set, and one emptied by `clear()`, fails with "empty". */
  lemma IsEmptyTests()
    ensures IsEmpty({1, 2, 3}) == None
    ensures IsEmpty<int>({}) == Some("empty")
    ensures IsEmpty({"hello"}) == None
    ensures IsEmpty({42}) == None
    ensures IsEmpty({1, 2, 3} - {1, 2, 3}) == Some("empty")
  {
    assert {1, 2, 3} - {1, 2, 3} == {};
  }
}
