# eventric validation kernel in Dafny

This project models the validation kernel of the eventric crates: a small,
pure library in which a *validator* inspects one value and answers either
nothing (the value is fine) or a fixed violation token, and a composition
function `validate(value, name, validators)` runs an ordered list of
validators, stops at the first one that objects, and returns
`Error::Invalid("<name>: <token>")`, whose display is
`"Validation Error: <name>: <token>"`. The built-in catalogue is modelled
too: four string validators (`ControlCharacters`, `IsEmpty`,
`PrecedingWhitespace`, `TrailingWhitespace`) and `IsEmpty` for `Vec<T>`,
`HashSet<T>`, `BTreeSet<T>` and `[T; N]`.

Files and modules:

- `validation.dfy` (`Validation`): the `Validator<T>` contract as the
  function type `T -> Option<string>`; the error `Invalid(message)`, its
  display `Render` and its constructor `InvalidFrom`; the message format
  `FormatMessage`; the composition as the method `Validate` (a `for` loop
  with an early return, as in the source) proved equal to the function
  `Verdict`, which rests on the recursive `FirstFailure`; the laws of
  composition (vacuity, first failure wins, short-circuit, order); and the
  result shape of the `Validate` trait.
- `string_validation.dfy` (`StringValidation`): the four string validators.
- `vec_validation.dfy`, `hashset_validation.dfy`, `b_tree_set_validation.dfy`,
  `array_validation.dfy`: `IsEmpty` for each container. A `Vec<T>` is a
  `seq<T>`, both set kinds are `set<T>`, and a `[T; N]` is a `seq<T>` whose
  length is the type's `N`.
- `char_class.dfy` (`CharClass`): `char::is_control` and
  `char::is_whitespace` of Rust's standard library, written out from the
  Unicode tables they are defined by (general category Cc; the White_Space
  property).
- `tokens.dfy` (`Tokens`): the four violation tokens in one place.
- `scenarios.dfy` (`Scenarios`): end-to-end uses of `validate` with the
  catalogue, with the exact messages.

Notes on the code that the model follows:

- `Error` derives only `Debug` and `Error`
  (crates/eventric-core/src/validation.rs:48). The lemmas compare errors with
  Dafny's value equality and claim nothing about a `PartialEq`
  implementation.
- The documentation of `Validate::validate` names an `Error::Validation`
  variant (crates/eventric-core/src/validation.rs:39) that does not exist; the
  only variant is `Invalid`, which is what the model uses.
- The `Validate` trait returns the kernel `Error` itself
  (crates/eventric-core/src/validation.rs:40), and so does the model's
  `Checked<S>`.
- crates/eventric-core/src/validation.rs:8-9 declares only the submodules
  `string` and `vec`, so eventric-core's hashset.rs and array.rs are not part
  of that crate's module tree as written, and their tests are not compiled.
  The `HashSetValidation` and `ArrayValidation` modules model those files as
  they are written.

## Model

| member | source | states |
|---|---|---|
| `Validation.Render` | crates/eventric-core/src/validation.rs:48-53 | the display of `Invalid(m)` is the prefix `"Validation Error: "` followed by `m` unchanged, and nothing else |
| `Validation.RenderInjective` | crates/eventric-core/src/validation.rs:51 | two errors render to the same text exactly when they are the same error: the message is recoverable from the display |
| `Validation.InvalidFrom` | crates/eventric-core/src/validation.rs:55-62 | `Error::invalid(s)` is an `Invalid` whose message is `s` unchanged, so it renders as the prefix followed by `s` |
| `Validation.FormatMessage` | crates/eventric-core/src/validation.rs:84 | the message is the name verbatim, then `": "`, then the token verbatim, with no other characters |
| `Validation.MessageDeterminesToken` | crates/eventric-core/src/validation.rs:84 | under one name, two tokens give the same message exactly when they are equal |
| `Validation.EmptyNameMessage` | crates/eventric-core/src/validation.rs:84 | an empty name gives the message `": " + token` |
| `Validation.FirstFailure` | crates/eventric-core/src/validation.rs:82-85 | the answer is absent exactly when every validator passes; otherwise it is the token of a validator that fails while every earlier one passes |
| `Validation.FirstFailureAt` | crates/eventric-core/src/validation.rs:82-85 | if position `i` is the first failing one, the reported token is that validator's own answer |
| `Validation.FirstFailureAppend` | crates/eventric-core/src/validation.rs:82-88 | running `front + back` gives `front`'s first failure if `front` has one, and otherwise `back`'s |
| `Validation.Verdict` | crates/eventric-core/src/validation.rs:78-89 | `Ok` exactly when every validator passes; otherwise `Err(Invalid(name + ": " + token))` for the first failing validator in list order |
| `Validation.Validate` | crates/eventric-core/src/validation.rs:78-89 | the loop returns `Verdict`'s answer; it stops at the end of the list on success and just after the first validator that objected on failure |
| `Validation.EmptyListAccepts` | crates/eventric-core/src/validation.rs:82-88 | with no validators, every value under every name is `Ok` |
| `Validation.ReportsFirstFailure` | crates/eventric-core/src/validation.rs:83-84 | when position `i` fails first, the error is `Invalid(name + ": " + token of i)` |
| `Validation.ShortCircuit` | crates/eventric-core/src/validation.rs:74-85 | when position `i` fails first, the result equals that of the list cut right after `i` |
| `Validation.LaterValidatorsIgnored` | crates/eventric-core/src/validation.rs:83-85 | appending any validators after a list that already fails leaves the result unchanged |
| `Validation.PassingPrefixIgnored` | crates/eventric-core/src/validation.rs:82-86 | validators at the front that all pass can be dropped without changing the result |
| `Validation.DependsOnlyOnFailingPrefix` | crates/eventric-core/src/validation.rs:74-85 | two lists that agree up to and including one list's first failure give the same result |
| `Validation.OrderDecidesReport` | crates/eventric-core/src/validation.rs:82-84 | when position `i` fails first and a later `j` also fails, swapping the two reports `j`'s token, a different error whenever the tokens differ |
| `Validation.RenderedFailure` | crates/eventric-core/src/validation.rs:48-89 | a failure at first position `i` renders as `"Validation Error: " + name + ": " + token` |
| `StringValidation.HasControlCharacter` | crates/eventric-core/src/validation/string.rs:16-19 | the front-to-back scan `.chars().any(char::is_control)` is true exactly when some character is a control character |
| `StringValidation.ControlCharacters` | crates/eventric-core/src/validation/string.rs:15-22 | `Some("control characters")` exactly when some character is a control character, `None` exactly when none is |
| `StringValidation.IsEmpty` | crates/eventric-core/src/validation/string.rs:27-31 | `Some("empty")` exactly when the string has no characters, `None` exactly when it has some |
| `StringValidation.PrecedingWhitespace` | crates/eventric-core/src/validation/string.rs:36-42 | `Some("preceding whitespace")` exactly when the string is non-empty and its first character is whitespace, else `None` |
| `StringValidation.TrailingWhitespace` | crates/eventric-core/src/validation/string.rs:47-53 | `Some("trailing whitespace")` exactly when the string is non-empty and its last character is whitespace, else `None` |
| `StringValidation.EmptyStringEdge` | crates/eventric-core/src/validation/string.rs:118-124 | on `""` only `IsEmpty` objects; `ControlCharacters`, `PrecedingWhitespace` and `TrailingWhitespace` answer `None` |
| `StringValidation.WhitespaceOnly` | crates/eventric-core/src/validation/string.rs:144-150 | a non-empty all-whitespace string passes `IsEmpty` yet fails both whitespace checks |
| `StringValidation.ControlCharactersConcat` | crates/eventric-core/src/validation/string.rs:16-21 | a concatenation has a control character exactly when one of its parts has |
| `StringValidation.PrecedingLooksOnlyAtFirst` | crates/eventric-core/src/validation/string.rs:36-42 | whatever follows a non-empty start does not change the `PrecedingWhitespace` answer |
| `StringValidation.TrailingLooksOnlyAtLast` | crates/eventric-core/src/validation/string.rs:47-53 | whatever precedes a non-empty end does not change the `TrailingWhitespace` answer |
| `StringValidation.ControlCharactersTests` | crates/eventric-core/src/validation/string.rs:78-124 | `"Hello World"` and `""` pass; `\n`, `\t`, `\r` and `\0` inside a word are flagged with `"control characters"` |
| `StringValidation.IsEmptyTests` | crates/eventric-core/src/validation/string.rs:128-150 | `"Hello"` and `"   "` pass; `""` fails with `"empty"` |
| `StringValidation.PrecedingWhitespaceTests` | crates/eventric-core/src/validation/string.rs:154-200 | a leading space, tab or newline is flagged; `"Hello World"`, `""` and `"Hello "` pass |
| `StringValidation.TrailingWhitespaceTests` | crates/eventric-core/src/validation/string.rs:204-250 | a trailing space, tab or newline is flagged; `"Hello World"`, `""` and `" Hello"` pass |
| `CharClass.IsControl` | crates/eventric-core/src/validation/string.rs:19 | `char::is_control` agrees with ASCII control (below space, or DEL) on ASCII and never holds above Latin-1 |
| `CharClass.IsWhitespace` | crates/eventric-core/src/validation/string.rs:37-51 | `char::is_whitespace` on ASCII is exactly space and tab through carriage return; a character both whitespace and control lies at or below U+0085 |
| `CharClass.TestedCharacters` | crates/eventric-core/src/validation/string.rs:86-234 | `\n`, `\t`, `\r`, `\0` are control characters; space, tab and newline are whitespace; space is not a control character; ASCII letters are neither |
| `VecValidation.IsEmpty` | crates/eventric-utils/src/validation/vec.rs:11-15 | `Some("empty")` exactly when the vector has no elements, `None` exactly when it has some |
| `VecValidation.OnlyLengthMatters` | crates/eventric-utils/src/validation/vec.rs:11-15 | vectors of equal length get the same answer, whatever their elements |
| `VecValidation.IsEmptyTests` | crates/eventric-utils/src/validation/vec.rs:35-75 | `[1, 2, 3]`, `["hello"]` and `[42]` pass; an empty vector and a cleared one fail with `"empty"` |
| `HashSetValidation.IsEmpty` | crates/eventric-core/src/validation/hashset.rs:13-17 | `Some("empty")` exactly when the set has cardinality zero, `None` exactly when it has elements |
| `HashSetValidation.FromIterAgreesWithVec` | crates/eventric-core/src/validation/hashset.rs:13-17 | the set collected from a vector gets the same answer as the vector |
| `HashSetValidation.IsEmptyTests` | crates/eventric-core/src/validation/hashset.rs:39-79 | `{1, 2, 3}`, `{"hello"}` and `{42}` pass; an empty set and a cleared one fail with `"empty"` |
| `BTreeSetValidation.IsEmpty` | crates/eventric-utils/src/validation/b_tree_set.rs:13-17 | `Some("empty")` exactly when the set is empty, `None` exactly when it has elements |
| `BTreeSetValidation.ClearedFails` | crates/eventric-utils/src/validation/b_tree_set.rs:71-79 | clearing any set, whatever it held, leaves one that fails with `"empty"` |
| `BTreeSetValidation.IsEmptyTests` | crates/eventric-utils/src/validation/b_tree_set.rs:39-79 | `{1, 2, 3}`, `{"hello"}` and `{42}` pass; an empty set and a cleared one fail with `"empty"` |
| `ArrayValidation.IsEmpty` | crates/eventric-core/src/validation/array.rs:11-15 | on a `[T; N]`, `Some("empty")` exactly when `N` is zero, `None` exactly when it is not |
| `ArrayValidation.OnlyLengthMatters` | crates/eventric-core/src/validation/array.rs:11-15 | any two arrays of the same `N` get the same answer, whatever their elements |
| `ArrayValidation.AgreesWithVec` | crates/eventric-core/src/validation/array.rs:11-15 | an array gets the same answer as a vector of the same elements |
| `ArrayValidation.IsEmptyTests` | crates/eventric-core/src/validation/array.rs:35-65 | `[1, 2, 3]`, `["hello"]` and `[42]` pass; the zero-length array fails with `"empty"` |
| `Scenarios.Accepted` | crates/eventric-core/src/validation.rs:78-89 | `"test"` under `"field"` is `Ok` with no validators and with string `IsEmpty` |
| `Scenarios.EmptyUsername` | crates/eventric-core/src/validation.rs:78-89 | `""` under `"username"` with `IsEmpty` is `Invalid("username: empty")`, displayed as `"Validation Error: username: empty"` |
| `Scenarios.DottedName` | crates/eventric-core/src/validation.rs:78-89 | the name `"user.profile.name"` appears verbatim: `Invalid("user.profile.name: empty")` |
| `Scenarios.PrecedingSpace` | crates/eventric-core/src/validation.rs:78-89 | `" test"` under `"name"` with `[PrecedingWhitespace, IsEmpty]` is `Invalid("name: preceding whitespace")` |
| `Scenarios.TrailingNewline` | crates/eventric-core/src/validation.rs:78-89 | `"test\n"` under `"description"` with `[IsEmpty, ControlCharacters]` is `Invalid("description: control characters")` |
| `Scenarios.FirstObjectionWins` | crates/eventric-core/src/validation.rs:78-89 | `" test\n"` under `"input"` with `[PrecedingWhitespace, ControlCharacters, IsEmpty]` reports only the first objection, `"input: preceding whitespace"` |
| `Scenarios.SwappedOrder` | crates/eventric-core/src/validation.rs:78-89 | with `ControlCharacters` first, the same value reports `"input: control characters"` instead |
| `Scenarios.EmptyTags` | crates/eventric-core/src/validation.rs:78-89 | an empty vector under `"tags"` with `IsEmpty` is `Invalid("tags: empty")` |

## Left out

- The Unicode tables behind `char::is_control` and `char::is_whitespace` are
  written out as the Unicode Character Database defines them (category Cc;
  the White_Space property) rather than taken from a particular Rust release;
  a future Unicode change to either table is not tracked.
- Validation.Validate: a validator is a pure function value, so whether it
  was invoked cannot be observed; the short-circuit is stated instead as the
  result's independence from the validators after the first objection
  (`ShortCircuit`, `LaterValidatorsIgnored`, `DependsOnlyOnFailingPrefix`).
  A Rust validator with side effects (interior mutability through `&self`,
  a panic) is outside the model.
- The `Display` bound on the name and the `format!` machinery: the name is
  modelled as its already-rendered string.
- The `thiserror` derive and `Debug`: only the display text of `Invalid` is
  modelled, as `Render`.
- Trait-object dispatch (`&dyn Validator<T>`): a validator is a function
  value, and the list is a sequence of them.
- The `Validate` trait (crates/eventric-core/src/validation.rs:30-41) has no
  implementation in the core; the model gives only its result type
  `Checked<S>`, with no behaviour to prove.
- Hashing and tree ordering inside `HashSet` and `BTreeSet`: only emptiness
  is observed, so both are Dafny sets.
- `Vec::clear` and `from_iter`, which appear only in test setup: a cleared
  collection is the empty one, and a collected set is the set of a
  sequence's elements.
- The test-assertion macros and the module wiring, including the duplicated
  validation modules of the two crates: one `Validator` concept serves both.
  The `validation` module of the utils crate is not part of this model and
  is taken to declare the same `Validator` trait as the core.
