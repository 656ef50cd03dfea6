/** End-to-end uses of `validate` with the built-in catalogue: which
    validator's objection is reported, and the exact message it carries. */
module Scenarios {

  import opened Validation
  import StringValidation
  import VecValidation
  import CharClass

  /** The catalogue validators as validator values. */
  const Preceding: Validator<string> := StringValidation.PrecedingWhitespace
  const Control: Validator<string> := StringValidation.ControlCharacters
  const Empty: Validator<string> := StringValidation.IsEmpty
  const EmptyList: Validator<seq<string>> := VecValidation.IsEmpty<string>

  /** No validators, or only ones the value meets: success. */
  lemma Accepted()
    ensures Verdict("test", "field", []) == Ok
    ensures Verdict("test", "field", [Empty]) == Ok
  {
  }

  /** A single failing validator: its token under the field name, rendered
      after the fixed prefix. */
  lemma EmptyUsername()
    ensures Verdict("", "username", [Empty]) == Err(Invalid("username: empty"))
    ensures Render(Verdict("", "username", [Empty]).error) == "Validation Error: username: empty"
  {
    assert FormatMessage("username", "empty") == "username: empty";
    var vs := [Empty];
    ReportsFirstFailure("", "username", vs, 0);
  }

  /** The name is used verbatim, dots included. */
  lemma DottedName()
    ensures Verdict("", "user.profile.name", [Empty]) == Err(Invalid("user.profile.name: empty"))
  {
    assert FormatMessage("user.profile.name", "empty") == "user.profile.name: empty";
    var vs := [Empty];
    ReportsFirstFailure("", "user.profile.name", vs, 0);
  }

  /** A validator after the failing one is not reached. */
  lemma PrecedingSpace()
    ensures Verdict(" test", "name", [Preceding, Empty]) == Err(Invalid("name: preceding whitespace"))
  {
    assert FormatMessage("name", "preceding whitespace") == "name: preceding whitespace";
    var vs := [Preceding, Empty];
    assert vs[0](" test") == Some("preceding whitespace");
    ReportsFirstFailure(" test", "name", vs, 0);
  }

  /** The failing validator is found after a passing one. */
  lemma TrailingNewline()
    ensures Verdict("test\n", "description", [Empty, Control]) == Err(Invalid("description: control characters"))
  {
    assert FormatMessage("description", "control characters") == "description: control characters";
    var vs := [Empty, Control];
    assert vs[0]("test\n") == None;
    assert CharClass.IsControl("test\n"[4]);
    assert vs[1]("test\n") == Some("control characters");
    ReportsFirstFailure("test\n", "description", vs, 1);
  }

  /** Of two failing validators the first is reported; the later one is
      never consulted. */
  lemma FirstObjectionWins()
    ensures Verdict(" test\n", "input", [Preceding, Control, Empty]) == Err(Invalid("input: preceding whitespace"))
  {
    assert FormatMessage("input", "preceding whitespace") == "input: preceding whitespace";
    var vs := [Preceding, Control, Empty];
    assert vs[0](" test\n") == Some("preceding whitespace");
    ReportsFirstFailure(" test\n", "input", vs, 0);
  }

  /** Swapping the two failing validators changes the reported token. */
  lemma SwappedOrder()
    ensures Verdict(" test\n", "input", [Control, Preceding]) == Err(Invalid("input: control characters"))
  {
    assert FormatMessage("input", "control characters") == "input: control characters";
    var vs := [Control, Preceding];
    assert CharClass.IsControl(" test\n"[5]);
    assert vs[0](" test\n") == Some("control characters");
    ReportsFirstFailure(" test\n", "input", vs, 0);
  }

  /** An empty vector under the name "tags". */
  lemma EmptyTags()
    ensures Verdict<seq<string>>([], "tags", [EmptyList]) == Err(Invalid("tags: empty"))
  {
    assert FormatMessage("tags", "empty") == "tags: empty";
    var vs := [EmptyList];
    ReportsFirstFailure<seq<string>>([], "tags", vs, 0);
  }
}
