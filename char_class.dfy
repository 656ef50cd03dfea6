/** The two character classifications of Rust's standard library that the
    string validators rely on, written out from the Unicode Character Database
    tables they are defined by. Dafny's `char` is a Unicode scalar value, as
    Rust's is. */
module CharClass {

  /** `char::is_control`: the character has general category Cc,
      that is U+0000..U+001F or U+007F..U+009F. On ASCII it agrees with
      `char::is_ascii_control`, and it never holds above Latin-1. */
  predicate IsControl(c: char)
    ensures c as int < 0x80 ==> (IsControl(c) <==> c < ' ' || c as int == 0x7F)
    ensures 0x100 <= c as int ==> !IsControl(c)
  {
    var n := c as int;
    n <= 0x1F || (0x7F <= n && n <= 0x9F)
  }

  /** `char::is_whitespace`: the character has the Unicode White_Space property.
      On ASCII this is the fast path of the standard library: the space and
      tab through carriage return, vertical tab included. The characters that
      are both whitespace and control characters lie at or below U+0085. */
  predicate IsWhitespace(c: char)
    ensures c as int < 0x80 ==> (IsWhitespace(c) <==> c == ' ' || ('\t' <= c && c <= '\r'))
    ensures IsWhitespace(c) && IsControl(c) ==> c as int <= 0x85
  {
    var n := c as int;
    (0x09 <= n && n <= 0x0D) || n == 0x20 || n == 0x85 || n == 0xA0 || n == 0x1680
    || (0x2000 <= n && n <= 0x200A) || n == 0x2028 || n == 0x2029 || n == 0x202F
    || n == 0x205F || n == 0x3000
  }

  /** ASCII letters, the characters the tests surround the special ones with. */
  predicate IsAsciiLetter(c: char) {
    ('a' <= c && c <= 'z') || ('A' <= c && c <= 'Z')
  }

  /** The classes of the characters that the tests exercise: the control
      characters, the whitespace characters, and letters that are neither. */
  lemma TestedCharacters(c: char)
    ensures IsControl('\n') && IsControl('\t') && IsControl('\r') && IsControl('\0')
    ensures IsWhitespace(' ') && IsWhitespace('\t') && IsWhitespace('\n')
    ensures !IsControl(' ')
    ensures IsAsciiLetter(c) ==> !IsControl(c) && !IsWhitespace(c)
  {
  }
}
