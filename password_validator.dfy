/** The client's password validators: the ordered rule chain both validator
    files define, the confirm-field matcher that edits the confirm control's
    error map in place, and the stub matcher of the second file. */
module PasswordValidator {
  import opened Wrappers
  import opened Text

  /** The single key of the `ValidationErrors` object each rule reports. */
  datatype Failure =
    | Required
    | InvalidLength
    | InvalidUpperCase
    | InvalidLowerCase
    | InvalidNumeric
    | InvalidSpecialCase

  /** The characters of the class `[!@#$%^&*(),.?":{}|<>]`. */
  const Specials: string := "!@#$%^&*(),.?\":{}|<>"

  /** `/[A-Z]/.test`, `/[a-z]/.test`, `/[0-9]/.test` and the special class. */
  predicate HasUpper(p: string) { exists i | 0 <= i < |p| :: 'A' <= p[i] <= 'Z' }
  predicate HasLower(p: string) { exists i | 0 <= i < |p| :: 'a' <= p[i] <= 'z' }
  predicate HasDigit(p: string) { exists i | 0 <= i < |p| :: '0' <= p[i] <= '9' }
  predicate HasSpecial(p: string) { exists i | 0 <= i < |p| :: p[i] in Specials }

  /** JavaScript truthiness of the control's value: `null`, `undefined` and
      the empty string are falsy. */
  predicate Present(value: Option<string>) {
    value.Some? && value.value != []
  }

  /** The rules in the order they run, each applied only when all earlier
      ones passed. Lengths are UTF-16 code units. */
  predicate PassesAll(min: int, max: int, p: string) {
    p != [] && min <= Utf16Len(p) <= max && HasUpper(p) && HasLower(p) && HasDigit(p) && HasSpecial(p)
  }

  /** `PasswordValidator(min, max)` applied to a control value: `None` is the
      validator's `null`, `Some(f)` the first failed rule. */
  function Validate(min: int, max: int, value: Option<string>): (r: Option<Failure>)
    ensures r == None <==> value.Some? && PassesAll(min, max, value.value)
    ensures !Present(value) <==> r == Some(Required)
    ensures r == Some(InvalidLength) <==> Present(value) && !(min <= Utf16Len(value.value) <= max)
  {
    if !Present(value) then Some(Required)
    else
      var p := value.value;
      if Utf16Len(p) < min || Utf16Len(p) > max then Some(InvalidLength)
      else if !HasUpper(p) then Some(InvalidUpperCase)
      else if !HasLower(p) then Some(InvalidLowerCase)
      else if !HasDigit(p) then Some(InvalidNumeric)
      else if !HasSpecial(p) then Some(InvalidSpecialCase)
      else None
  }

  /** Rank of a rule in the chain. */
  function Rank(f: Failure): nat {
    match f
    case Required => 0
    case InvalidLength => 1
    case InvalidUpperCase => 2
    case InvalidLowerCase => 3
    case InvalidNumeric => 4
    case InvalidSpecialCase => 5
  }

  /** Whether the value breaks the given rule, taken on its own. */
  predicate Breaks(min: int, max: int, value: Option<string>, f: Failure) {
    match f
    case Required => !Present(value)
    case InvalidLength => Present(value) && !(min <= Utf16Len(value.value) <= max)
    case InvalidUpperCase => Present(value) && !HasUpper(value.value)
    case InvalidLowerCase => Present(value) && !HasLower(value.value)
    case InvalidNumeric => Present(value) && !HasDigit(value.value)
    case InvalidSpecialCase => Present(value) && !HasSpecial(value.value)
  }

  /** Only the first failure is reported: the reported rule is broken and
      every rule ranked before it holds. */
  lemma FirstFailureReported(min: int, max: int, value: Option<string>)
    ensures var r := Validate(min, max, value);
      r.Some? ==> (Breaks(min, max, value, r.value)
        && forall g: Failure :: Rank(g) < Rank(r.value) ==> !Breaks(min, max, value, g))
  {
  }

  /** A value breaking no rule is accepted, and any broken rule makes the
      validator report some failure. */
  lemma NullIffNoRuleBroken(min: int, max: int, value: Option<string>)
    ensures Validate(min, max, value) == None <==>
      forall g: Failure :: !Breaks(min, max, value, g)
  {
    if Validate(min, max, value) != None {
      var f := Validate(min, max, value).value;
      FirstFailureReported(min, max, value);
      assert Breaks(min, max, value, f);
    } else {
      forall g: Failure ensures !Breaks(min, max, value, g) {
        assert value.Some? && PassesAll(min, max, value.value);
      }
    }
  }

  /** Both length bounds are inclusive. */
  lemma LengthBoundsInclusive(min: int, max: int, p: string)
    requires p != [] && HasUpper(p) && HasLower(p) && HasDigit(p) && HasSpecial(p)
    requires Utf16Len(p) == min || Utf16Len(p) == max
    requires min <= max
    ensures Validate(min, max, Some(p)) == None
  {
  }

  /** A sample value: "Abcdef1!" passes the 8..16 rule chain. */
  lemma SampleAccepted()
    ensures Validate(8, 16, Some("Abcdef1!")) == None
    ensures Validate(8, 16, Some("abcdef1!")) == Some(InvalidUpperCase)
  {
    var p := "Abcdef1!";
    assert 'A' <= p[0] <= 'Z' && 'a' <= p[1] <= 'z' && '0' <= p[6] <= '9' && p[7] in Specials;
    var q := "abcdef1!";
    assert 'a' <= q[0] <= 'z' && '0' <= q[6] <= '9';
    forall i | 0 <= i < |q| ensures !('A' <= q[i] <= 'Z') {}
  }

  // ---------------------------------------------------------------------
  // PasswordMatchValidator (first file)
  // ---------------------------------------------------------------------

  /** An Angular form control: its value and its `errors` object, `None`
      for `null`, otherwise the set of error keys present. */
  class Control {
    var value: Option<string>
    var errors: Option<set<string>>

    constructor (value: Option<string>, errors: Option<set<string>>)
      ensures this.value == value && this.errors == errors
    {
      this.value := value;
      this.errors := errors;
    }
  }

  /** The confirm control's errors after the matcher runs: on a mismatch
      `mismatch` is added beside the existing keys; on a match it is removed,
      and an object left empty becomes `null`; a `null` object stays `null`. */
  function MatchErrors(matches: bool, errors: Option<set<string>>): (r: Option<set<string>>)
    ensures !matches ==> (r.Some? && "mismatch" in r.value
      && (errors.Some? ==> r.value - {"mismatch"} == errors.value - {"mismatch"})
      && (errors.None? ==> r.value == {"mismatch"}))
    ensures matches ==> (r.None? <==> errors.None? || errors.value <= {"mismatch"})
    ensures matches && r.Some? ==> errors.Some? && r.value == errors.value - {"mismatch"} && r.value != {}
  {
    if !matches then
      Some((if errors.Some? then errors.value else {}) + {"mismatch"})
    else if errors.None? then None
    else
      var rest := errors.value - {"mismatch"};
      if rest == {} then None else Some(rest)
  }

  /** Running the matcher twice on unchanged values gives what one run gives. */
  lemma MatchErrorsIdempotent(matches: bool, errors: Option<set<string>>)
    ensures MatchErrors(matches, MatchErrors(matches, errors)) == MatchErrors(matches, errors)
  {
    var once := MatchErrors(matches, errors);
    if !matches {
      assert once.value + {"mismatch"} == once.value;
    } else if once.Some? {
      assert once.value - {"mismatch"} == once.value;
    }
  }

  /** Fixing a mismatch removes exactly the error the matcher added. */
  lemma MatchUndoesMismatch(errors: set<string>)
    requires "mismatch" !in errors && errors != {}
    ensures MatchErrors(true, MatchErrors(false, Some(errors))) == Some(errors)
  {
  }

  /** `PasswordMatchValidator(pw, cf)` applied to the form group. The group's
      `get` lookups are its inputs; the result is always `null`. */
  method MatchValidator(pw: Option<Control>, cf: Option<Control>) returns (r: Option<set<string>>)
    modifies if cf.Some? then {cf.value} else {}
    ensures r.None?
    ensures pw.None? || cf.None? ==> cf.Some? ==> unchanged(cf.value)
    ensures pw.Some? && cf.Some? ==>
      cf.value.value == old(cf.value.value)
      && cf.value.errors == MatchErrors(old(pw.value.value) == old(cf.value.value), old(cf.value.errors))
  {
    r := None;
    if pw.None? || cf.None? {
      return;
    }
    var ctrlPw, ctrlCfPw := pw.value, cf.value;
    var isMatch := ctrlPw.value == ctrlCfPw.value;
    if !isMatch {
      var errors := if ctrlCfPw.errors.Some? then ctrlCfPw.errors.value else {};
      ctrlCfPw.errors := Some(errors + {"mismatch"});
    } else if ctrlCfPw.errors.Some? {
      var rest := ctrlCfPw.errors.value - {"mismatch"};
      ctrlCfPw.errors := if rest == {} then None else Some(rest);
    }
  }

  // ---------------------------------------------------------------------
  // passwordMatchValidator (second file): a stub
  // ---------------------------------------------------------------------

  /** The second file's `passwordMatchValidator`: reports nothing, whatever
      the form holds, and touches no control. */
  function MatchValidatorStub(pw: Option<string>, cf: Option<string>): (r: Option<set<string>>)
    ensures r.None?
  {
    None
  }
}
