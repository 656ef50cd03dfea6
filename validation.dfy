/** The validation kernel of crates/eventric-core/src/validation.rs: the
    validator contract, the kernel error and its rendering, and `validate`,
    which runs an ordered list of validators over one value and reports the
    first violation under a caller-chosen field name. */
module Validation {

  datatype Option<+T> = None | Some(value: T)

  /** A validator of values of type `T` (the `Validator<T>` trait): `None`
      when the value meets the criterion, otherwise a fixed token naming the
      violation. A Dafny function value reads no state, so a validator's
      answer depends on the value alone and repeated calls agree. */
  type Validator<!T> = T -> Option<string>

  // ---------------------------------------------------------------------------
  // The kernel error

  /** `Error::Invalid(String)`, the only error the kernel produces. */
  datatype Error = Invalid(message: string)

  /** The fixed text that the display of `Invalid(m)` puts before `m`. */
  const RenderPrefix: string := "Validation Error: "

  /** The display of an error, `"Validation Error: {0}"`: the prefix, then the
      message unchanged. */
  function Render(e: Error): (r: string)
    ensures |r| == |RenderPrefix| + |e.message|
    ensures r[..|RenderPrefix|] == RenderPrefix
    ensures r[|RenderPrefix|..] == e.message
  {
    RenderPrefix + e.message
  }

  /** Distinct errors render distinctly: the message is recoverable from the
      rendered text. */
  lemma RenderInjective(e1: Error, e2: Error)
    ensures Render(e1) == Render(e2) <==> e1 == e2
  {
    if Render(e1) == Render(e2) {
      assert e1.message == Render(e1)[|RenderPrefix|..];
    }
  }

  /** `Error::invalid(error)`: an `Invalid` error whose message is the given
      string, unchanged, and which therefore renders as prefix plus string. */
  function InvalidFrom(error: string): (e: Error)
    ensures e.message == error
    ensures Render(e) == RenderPrefix + error
  {
    Invalid(error)
  }

  /** The message `format!("{name}: {error}")`: the rendered name verbatim,
      a colon and one space, then the token verbatim. */
  function FormatMessage(name: string, token: string): (m: string)
    ensures |m| == |name| + 2 + |token|
    ensures m[..|name|] == name
    ensures m[|name|..|name| + 2] == ": "
    ensures m[|name| + 2..] == token
  {
    name + ": " + token
  }

  /** Under a given name, the message determines the token. */
  lemma MessageDeterminesToken(name: string, t1: string, t2: string)
    ensures FormatMessage(name, t1) == FormatMessage(name, t2) <==> t1 == t2
  {
    if FormatMessage(name, t1) == FormatMessage(name, t2) {
      assert t1 == FormatMessage(name, t1)[|name| + 2..];
    }
  }

  /** An empty name is allowed and leaves the message starting with the colon. */
  lemma EmptyNameMessage(token: string)
    ensures FormatMessage("", token) == ": " + token
  {
  }

  // ---------------------------------------------------------------------------
  // Composition

  /** `Result<(), Error>`. */
  datatype Result = Ok | Err(error: Error)

  /** Every validator in the list accepts the value. */
  predicate AllPass<T>(validators: seq<Validator<T>>, value: T) {
    forall i :: 0 <= i < |validators| ==> validators[i](value).None?
  }

  /** Position `i` holds the first validator, in list order, that rejects the value. */
  predicate FailsFirstAt<T>(validators: seq<Validator<T>>, value: T, i: int) {
    && 0 <= i < |validators|
    && validators[i](value).Some?
    && forall j :: 0 <= j < i ==> validators[j](value).None?
  }

  /** The token of the first validator that rejects the value, if any. */
  function FirstFailure<T>(validators: seq<Validator<T>>, value: T): (token: Option<string>)
    ensures token.None? <==> AllPass(validators, value)
    ensures token.Some? ==> exists i :: FailsFirstAt(validators, value, i) && token == validators[i](value)
  {
    if |validators| == 0 then None
    else if validators[0](value).Some? then validators[0](value)
    else
      var rest := FirstFailure(validators[1..], value);
      assert rest.Some? ==> exists i :: FailsFirstAt(validators, value, i) && rest == validators[i](value) by {
        if rest.Some? {
          var k :| FailsFirstAt(validators[1..], value, k) && rest == validators[1..][k](value);
          assert FailsFirstAt(validators, value, k + 1);
        }
      }
      rest
  }

  /** At most one position is the first failure, and `FirstFailure` reports its token. */
  lemma {:induction false} FirstFailureAt<T>(validators: seq<Validator<T>>, value: T, i: int)
    requires FailsFirstAt(validators, value, i)
    ensures FirstFailure(validators, value) == validators[i](value)
  {
    if i > 0 {
      FirstFailureAt(validators[1..], value, i - 1);
    }
  }

  /** A non-empty list passes exactly when its head and its tail pass. */
  lemma AllPassUncons<T>(validators: seq<Validator<T>>, value: T)
    requires |validators| > 0
    ensures AllPass(validators, value) <==> validators[0](value).None? && AllPass(validators[1..], value)
  {
    if validators[0](value).None? && AllPass(validators[1..], value) {
      forall i | 0 <= i < |validators| ensures validators[i](value).None? {
        if i > 0 { assert validators[i] == validators[1..][i - 1]; }
      }
    }
  }

  /** Running `front + back` is running `front`, and only if all of `front`
      passes, running `back`. */
  lemma {:induction false} FirstFailureAppend<T>(front: seq<Validator<T>>, back: seq<Validator<T>>, value: T)
    ensures FirstFailure(front + back, value)
            == if AllPass(front, value) then FirstFailure(back, value) else FirstFailure(front, value)
  {
    if |front| == 0 {
      assert front + back == back;
    } else {
      assert (front + back)[0] == front[0];
      assert (front + back)[1..] == front[1..] + back;
      AllPassUncons(front, value);
      if front[0](value).None? {
        FirstFailureAppend(front[1..], back, value);
      }
    }
  }

  /** What `validate(value, name, validators)` returns: `Ok` when no validator
      objects, otherwise the first objection as `Invalid("{name}: {token}")`. */
  function Verdict<T>(value: T, name: string, validators: seq<Validator<T>>): (r: Result)
    ensures r.Ok? <==> AllPass(validators, value)
    ensures r.Err? ==> exists i :: FailsFirstAt(validators, value, i)
                                   && r.error == Invalid(FormatMessage(name, validators[i](value).value))
  {
    match FirstFailure(validators, value)
    case None => Ok
    case Some(token) => Err(InvalidFrom(FormatMessage(name, token)))
  }

  /** `validate`: consults the validators in list order and returns at the
      first objection. `consulted` is the position where the loop stopped:
      the length of the list on success, and on failure one past the first
      validator that objected. That the result does not depend on the
      validators after that point is stated by `ShortCircuit`,
      `LaterValidatorsIgnored` and `DependsOnlyOnFailingPrefix`. */
  method Validate<T>(value: T, name: string, validators: seq<Validator<T>>)
    returns (result: Result, ghost consulted: nat)
    ensures result == Verdict(value, name, validators)
    ensures consulted <= |validators|
    ensures result.Ok? ==> consulted == |validators|
    ensures result.Err? ==> FailsFirstAt(validators, value, consulted - 1)
  {
    for i := 0 to |validators|
      invariant forall j :: 0 <= j < i ==> validators[j](value).None?
    {
      var outcome := validators[i](value);
      if outcome.Some? {
        FirstFailureAt(validators, value, i);
        result, consulted := Err(InvalidFrom(FormatMessage(name, outcome.value))), i + 1;
        return;
      }
    }
    result, consulted := Ok, |validators|;
  }

  // ---------------------------------------------------------------------------
  // Properties of composition

  /** With no validators every value is valid, whatever the name. */
  lemma EmptyListAccepts<T>(value: T, name: string)
    ensures Verdict(value, name, []) == Ok
  {
  }

  /** The reported error is built from the first failing validator's token. */
  lemma ReportsFirstFailure<T>(value: T, name: string, validators: seq<Validator<T>>, i: int)
    requires FailsFirstAt(validators, value, i)
    ensures Verdict(value, name, validators) == Err(Invalid(FormatMessage(name, validators[i](value).value)))
  {
    FirstFailureAt(validators, value, i);
  }

  /** Short-circuit: once position `i` fails first, the result is that of the
      list cut just after `i`. */
  lemma ShortCircuit<T>(value: T, name: string, validators: seq<Validator<T>>, i: int)
    requires FailsFirstAt(validators, value, i)
    ensures Verdict(value, name, validators) == Verdict(value, name, validators[..i + 1])
  {
    FirstFailureAt(validators, value, i);
    assert FailsFirstAt(validators[..i + 1], value, i);
    FirstFailureAt(validators[..i + 1], value, i);
  }

  /** Anything appended after a list that already fails changes nothing. */
  lemma LaterValidatorsIgnored<T>(value: T, name: string, front: seq<Validator<T>>, back: seq<Validator<T>>)
    requires !AllPass(front, value)
    ensures Verdict(value, name, front + back) == Verdict(value, name, front)
  {
    FirstFailureAppend(front, back, value);
  }

  /** Validators that all pass can be dropped from the front of the list. */
  lemma PassingPrefixIgnored<T>(value: T, name: string, front: seq<Validator<T>>, back: seq<Validator<T>>)
    requires AllPass(front, value)
    ensures Verdict(value, name, front + back) == Verdict(value, name, back)
  {
    FirstFailureAppend(front, back, value);
  }

  /** Two lists that agree up to and including the first failure of one of
      them give the same result: nothing after that point is looked at. */
  lemma DependsOnlyOnFailingPrefix<T>(value: T, name: string, vs: seq<Validator<T>>, ws: seq<Validator<T>>, i: int)
    requires FailsFirstAt(vs, value, i)
    requires i < |ws| && vs[..i + 1] == ws[..i + 1]
    ensures Verdict(value, name, vs) == Verdict(value, name, ws)
  {
    assert ws[i] == ws[..i + 1][i];
    assert forall j :: 0 <= j < i ==> ws[j] == ws[..i + 1][j] == vs[j];
    assert FailsFirstAt(ws, value, i);
    FirstFailureAt(vs, value, i);
    FirstFailureAt(ws, value, i);
  }

  /** Order decides which objection is reported: when position `i` fails first
      and a later position `j` fails too, swapping the two validators makes
      `j`'s objection the reported one, which is a different error whenever
      the two tokens differ. */
  lemma OrderDecidesReport<T>(value: T, name: string, vs: seq<Validator<T>>, i: int, j: int)
    requires FailsFirstAt(vs, value, i)
    requires i < j < |vs| && vs[j](value).Some?
    ensures Verdict(value, name, vs[i := vs[j]][j := vs[i]])
            == Err(Invalid(FormatMessage(name, vs[j](value).value)))
    ensures vs[i](value) != vs[j](value)
            ==> Verdict(value, name, vs[i := vs[j]][j := vs[i]]) != Verdict(value, name, vs)
  {
    var ws := vs[i := vs[j]][j := vs[i]];
    assert ws[i] == vs[j];
    assert forall k :: 0 <= k < i ==> ws[k] == vs[k];
    assert FailsFirstAt(ws, value, i);
    ReportsFirstFailure(value, name, ws, i);
    ReportsFirstFailure(value, name, vs, i);
    MessageDeterminesToken(name, vs[i](value).value, vs[j](value).value);
  }

  /** A failure renders as `"Validation Error: <name>: <token>"`. */
  lemma RenderedFailure<T>(value: T, name: string, validators: seq<Validator<T>>, i: int)
    requires FailsFirstAt(validators, value, i)
    ensures Verdict(value, name, validators).Err?
    ensures Render(Verdict(value, name, validators).error)
            == RenderPrefix + name + ": " + validators[i](value).value
  {
    ReportsFirstFailure(value, name, validators, i);
  }

  // ---------------------------------------------------------------------------
  // The `Validate` trait

  /** The result of `Validate::validate(self)` (the `Validate` trait): the
      value handed back when it is valid, or the kernel error. The core has no
      implementation of the trait, so only its result shape is modelled. */
  datatype Checked<S> = Valid(value: S) | Rejected(error: Error)

}
