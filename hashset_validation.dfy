/** `IsEmpty` for hash sets, crates/eventric-core/src/validation/hashset.rs.
    Hashing plays no part in emptiness, so a `HashSet<T>` is a set. */
module HashSetValidation {

  import opened Validation
  import Tokens
  import VecValidation

  /** `IsEmpty`: objects exactly when the set has no elements; the only
      answers are `None` and the token "empty". */
  function IsEmpty<T>(value: set<T>): (r: Option<string>)
    ensures r == Some(Tokens.Empty) <==> |value| == 0
    ensures r == None <==> |value| > 0
  {
    if |value| == 0 then Some(Tokens.Empty) else None
  }

  /** A set collected from a vector (`HashSet::from_iter`) gets the same
      answer as the vector itself. */
  lemma FromIterAgreesWithVec<T>(items: seq<T>)
    ensures IsEmpty(set x | x in items) == VecValidation.IsEmpty(items)
  {
    var collected := set x | x in items;
    if |items| > 0 {
      assert items[0] in collected;
      assert collected != {};
    } else {
      assert collected == {};
    }
  }

  /** The assertions of the tests: integer, string and singleton sets pass;
      an empty set, and one emptied by `clear()`, fails with "empty". */
  lemma IsEmptyTests()
    ensures IsEmpty({1, 2, 3}) == None
    ensures IsEmpty<int>({}) == Some("empty")
    ensures IsEmpty({"hello"}) == None
    ensures IsEmpty({42}) == None
    ensures IsEmpty({1, 2, 3} - {1, 2, 3}) == Some("empty")
  {
    assert 1 in {1, 2, 3};
    assert "hello" in {"hello"};
    assert 42 in {42};
    assert {1, 2, 3} - {1, 2, 3} == {};
  }
}
