/** The validators over strings of crates/eventric-core/src/validation/string.rs.
    Each answers `None` or its one fixed token. */
module StringValidation {

  import opened Validation
  import opened CharClass
  import Tokens

  /** `value.chars().any(char::is_control)`, scanning from the front. */
  function HasControlCharacter(value: string): (found: bool)
    ensures found <==> exists i :: 0 <= i < |value| && IsControl(value[i])
  {
    if |value| == 0 then false
    else if IsControl(value[0]) then true
    else
      var rest := HasControlCharacter(value[1..]);
      assert rest ==> exists i :: 0 <= i < |value| && IsControl(value[i]) by {
        if rest {
          var k :| 0 <= k < |value[1..]| && IsControl(value[1..][k]);
          assert IsControl(value[k + 1]);
        }
      }
      rest
  }

  /** `ControlCharacters`: objects exactly when some character is a control character. */
  function ControlCharacters(value: string): (r: Option<string>)
    ensures r == Some(Tokens.ControlCharacters) <==> exists i :: 0 <= i < |value| && IsControl(value[i])
    ensures r == None <==> forall i :: 0 <= i < |value| ==> !IsControl(value[i])
  {
    if HasControlCharacter(value) then Some(Tokens.ControlCharacters) else None
  }

  /** `IsEmpty`: objects exactly when the string has no characters. */
  function IsEmpty(value: string): (r: Option<string>)
    ensures r == Some(Tokens.Empty) <==> |value| == 0
    ensures r == None <==> |value| > 0
  {
    if value == [] then Some(Tokens.Empty) else None
  }

  /** `PrecedingWhitespace`: `starts_with(char::is_whitespace)`, so it objects
      exactly when there is a first character and it is whitespace. */
  function PrecedingWhitespace(value: string): (r: Option<string>)
    ensures r == Some(Tokens.PrecedingWhitespace) <==> |value| > 0 && IsWhitespace(value[0])
    ensures r == None <==> |value| == 0 || !IsWhitespace(value[0])
  {
    if |value| > 0 && IsWhitespace(value[0]) then Some(Tokens.PrecedingWhitespace) else None
  }

  /** `TrailingWhitespace`: `ends_with(char::is_whitespace)`, so it objects
      exactly when there is a last character and it is whitespace. */
  function TrailingWhitespace(value: string): (r: Option<string>)
    ensures r == Some(Tokens.TrailingWhitespace) <==> |value| > 0 && IsWhitespace(value[|value| - 1])
    ensures r == None <==> |value| == 0 || !IsWhitespace(value[|value| - 1])
  {
    if |value| > 0 && IsWhitespace(value[|value| - 1]) then Some(Tokens.TrailingWhitespace) else None
  }

  // ---------------------------------------------------------------------------
  // Properties

  /** On the empty string only `IsEmpty` objects; the other three pass. */
  lemma EmptyStringEdge()
    ensures IsEmpty("") == Some(Tokens.Empty)
    ensures ControlCharacters("") == None
    ensures PrecedingWhitespace("") == None
    ensures TrailingWhitespace("") == None
  {
  }

  /** A string made only of whitespace is not empty, yet fails both
      whitespace checks. */
  lemma WhitespaceOnly(value: string)
    requires |value| > 0 && forall i :: 0 <= i < |value| ==> IsWhitespace(value[i])
    ensures IsEmpty(value) == None
    ensures PrecedingWhitespace(value) == Some(Tokens.PrecedingWhitespace)
    ensures TrailingWhitespace(value) == Some(Tokens.TrailingWhitespace)
  {
  }

  /** A string has a control character exactly when one of its two parts has. */
  lemma ControlCharactersConcat(a: string, b: string)
    ensures ControlCharacters(a + b).Some? <==> ControlCharacters(a).Some? || ControlCharacters(b).Some?
  {
    if ControlCharacters(a + b).Some? {
      var k :| 0 <= k < |a + b| && IsControl((a + b)[k]);
      if k < |a| {
        assert IsControl(a[k]);
      } else {
        assert IsControl(b[k - |a|]);
      }
    }
    if ControlCharacters(a).Some? {
      var k :| 0 <= k < |a| && IsControl(a[k]);
      assert IsControl((a + b)[k]);
    }
    if ControlCharacters(b).Some? {
      var k :| 0 <= k < |b| && IsControl(b[k]);
      assert IsControl((a + b)[|a| + k]);
    }
  }

  /** `PrecedingWhitespace` looks at the first character only: what follows a
      non-empty start does not matter. */
  lemma PrecedingLooksOnlyAtFirst(start: string, rest: string)
    requires |start| > 0
    ensures PrecedingWhitespace(start + rest) == PrecedingWhitespace(start)
  {
    assert (start + rest)[0] == start[0];
  }

  /** `TrailingWhitespace` looks at the last character only: what precedes a
      non-empty end does not matter. */
  lemma TrailingLooksOnlyAtLast(rest: string, end: string)
    requires |end| > 0
    ensures TrailingWhitespace(rest + end) == TrailingWhitespace(end)
  {
    assert (rest + end)[|rest + end| - 1] == end[|end| - 1];
  }

  /** The assertions of the `ControlCharacters` tests. */
  lemma ControlCharactersTests()
    ensures ControlCharacters("Hello World") == None
    ensures ControlCharacters("Hello\nWorld") == Some("control characters")
    ensures ControlCharacters("Hello\tWorld") == Some("control characters")
    ensures ControlCharacters("Hello\rWorld") == Some("control characters")
    ensures ControlCharacters("Hello\0World") == Some("control characters")
    ensures ControlCharacters("") == None
  {
    assert IsControl("Hello\nWorld"[5]);
    assert IsControl("Hello\tWorld"[5]);
    assert IsControl("Hello\rWorld"[5]);
    assert IsControl("Hello\0World"[5]);
  }

  /** The assertions of the `IsEmpty` tests. */
  lemma IsEmptyTests()
    ensures IsEmpty("Hello") == None
    ensures IsEmpty("") == Some("empty")
    ensures IsEmpty("   ") == None
  {
  }

  /** The assertions of the `PrecedingWhitespace` tests. */
  lemma PrecedingWhitespaceTests()
    ensures PrecedingWhitespace("Hello World") == None
    ensures PrecedingWhitespace(" Hello") == Some("preceding whitespace")
    ensures PrecedingWhitespace("\tHello") == Some("preceding whitespace")
    ensures PrecedingWhitespace("\nHello") == Some("preceding whitespace")
    ensures PrecedingWhitespace("") == None
    ensures PrecedingWhitespace("Hello ") == None
  {
  }

  /** The assertions of the `TrailingWhitespace` tests. */
  lemma TrailingWhitespaceTests()
    ensures TrailingWhitespace("Hello World") == None
    ensures TrailingWhitespace("Hello ") == Some("trailing whitespace")
    ensures TrailingWhitespace("Hello\t") == Some("trailing whitespace")
    ensures TrailingWhitespace("Hello\n") == Some("trailing whitespace")
    ensures TrailingWhitespace("") == None
    ensures TrailingWhitespace(" Hello") == None
  {
  }
}
