/**
 * The account sign-up form: a keystroke handler that keeps the mobile number
 * digits-only, at most ten long and starting with 7, 8 or 9, and a validator
 * that builds one error message per failing field.
 */
module Signup {
  import opened Options
  import opened Strings
  import opened Lists

  datatype Field = FullName | Email | Username | Password | ConfirmPassword | MobileNumber

  const AllFields: set<Field> := {FullName, Email, Username, Password, ConfirmPassword, MobileNumber}

  /** The six inputs of the form, as strings. */
  datatype FormData = FormData(
    fullName: string,
    email: string,
    username: string,
    password: string,
    confirmPassword: string,
    mobileNumber: string)
  {
    function Get(f: Field): string
    {
      match f
      case FullName => fullName
      case Email => email
      case Username => username
      case Password => password
      case ConfirmPassword => confirmPassword
      case MobileNumber => mobileNumber
    }

    /** `{ ...formData, [f]: v }`. */
    function With(f: Field, v: string): (d: FormData)
      ensures d.Get(f) == v
      ensures forall g :: g != f ==> d.Get(g) == Get(g)
    {
      match f
      case FullName => this.(fullName := v)
      case Email => this.(email := v)
      case Username => this.(username := v)
      case Password => this.(password := v)
      case ConfirmPassword => this.(confirmPassword := v)
      case MobileNumber => this.(mobileNumber := v)
    }
  }

  const EmptyForm := FormData("", "", "", "", "", "")

  const FullNameRequired := "Full Name is required"
  const EmailRequired := "Email is required"
  const EmailInvalid := "Invalid email format"
  const UsernameRequired := "Username is required"
  const PasswordRequired := "Password is required"
  const PasswordTooShort := "Password must be at least 6 characters"
  const PasswordsDiffer := "Passwords do not match"
  const MobileRequired := "Mobile number is required"
  const MobileWrongLength := "Mobile number must be 10 digits"
  const MobileWrongPrefix := "Mobile number must start with 7, 8, or 9"

  const MinPasswordLength := 6
  const MobileLength := 10

  // ---------------------------------------------------------------------------
  // Patterns
  // ---------------------------------------------------------------------------

  /** `/^[789]/.test(s)`. */
  predicate HasMobilePrefix(s: string)
  {
    |s| > 0 && (s[0] == '7' || s[0] == '8' || s[0] == '9')
  }

  /**
   * A match of `\S+@\S+\.\S+` with its `@` at index `at` and its `.` at index
   * `dot`: a non-space before the `@`, a non-empty run of non-spaces between
   * the two, and a non-space after the `.`.
   */
  predicate EmailMatchAt(s: string, at: nat, dot: nat)
  {
    && 1 <= at && at + 1 < dot && dot + 1 < |s|
    && s[at] == '@' && s[dot] == '.'
    && !IsWhitespace(s[at - 1]) && !IsWhitespace(s[dot + 1])
    && NoWhitespace(s[at + 1..dot])
  }

  /** No character of `s` is whitespace: `s` is a run of `\S`. */
  predicate NoWhitespace(s: string)
  {
    forall i :: 0 <= i < |s| ==> !IsWhitespace(s[i])
  }

  /**
   * `/\S+@\S+\.\S+/.test(s)`: a scan for a match anywhere in `s`, trying
   * each position for the `@` in turn and, for each, each later position for
   * the `.`.
   */
  predicate MatchesEmailPattern(s: string)
  {
    EmailMatchFrom(s, 0)
  }

  /** Some match has its `@` at index `at` or later. */
  predicate EmailMatchFrom(s: string, at: nat)
    decreases |s| - at
  {
    at < |s| && (EmailMatchWithDot(s, at, at + 2) || EmailMatchFrom(s, at + 1))
  }

  /** Some match has its `@` at index `at` and its `.` at index `dot` or later. */
  predicate EmailMatchWithDot(s: string, at: nat, dot: nat)
    decreases |s| - dot
  {
    dot < |s| && (EmailMatchAt(s, at, dot) || EmailMatchWithDot(s, at, dot + 1))
  }

  /** The inner scan finds a `.` for the `@` at `at` exactly when a match with a `.` at `dot0` or later exists. */
  lemma {:induction false} EmailMatchWithDotIff(s: string, at: nat, dot0: nat)
    ensures EmailMatchWithDot(s, at, dot0) <==> exists dot: nat :: dot0 <= dot < |s| && EmailMatchAt(s, at, dot)
    decreases |s| - dot0
  {
    if dot0 < |s| {
      EmailMatchWithDotIff(s, at, dot0 + 1);
      if EmailMatchWithDot(s, at, dot0) && !EmailMatchAt(s, at, dot0) {
        var dot: nat :| dot0 + 1 <= dot < |s| && EmailMatchAt(s, at, dot);
        assert dot0 <= dot;
      }
      if exists dot: nat :: dot0 <= dot < |s| && EmailMatchAt(s, at, dot) {
        var dot: nat :| dot0 <= dot < |s| && EmailMatchAt(s, at, dot);
        if dot > dot0 {
          assert dot0 + 1 <= dot;
        }
      }
    }
  }

  /** The outer scan finds a match exactly when one with its `@` at `at0` or later exists. */
  lemma {:induction false} EmailMatchFromIff(s: string, at0: nat)
    ensures EmailMatchFrom(s, at0) <==>
      exists at: nat, dot: nat :: at0 <= at < |s| && dot < |s| && EmailMatchAt(s, at, dot)
    decreases |s| - at0
  {
    if at0 < |s| {
      EmailMatchFromIff(s, at0 + 1);
      EmailMatchWithDotIff(s, at0, at0 + 2);
      if EmailMatchWithDot(s, at0, at0 + 2) {
        var dot: nat :| at0 + 2 <= dot < |s| && EmailMatchAt(s, at0, dot);
        assert at0 <= at0 < |s| && dot < |s| && EmailMatchAt(s, at0, dot);
      } else if EmailMatchFrom(s, at0 + 1) {
        var at: nat, dot: nat :| at0 + 1 <= at < |s| && dot < |s| && EmailMatchAt(s, at, dot);
        assert at0 <= at < |s| && dot < |s| && EmailMatchAt(s, at, dot);
      }
      if exists at: nat, dot: nat :: at0 <= at < |s| && dot < |s| && EmailMatchAt(s, at, dot) {
        var at: nat, dot: nat :| at0 <= at < |s| && dot < |s| && EmailMatchAt(s, at, dot);
        if at == at0 {
          assert at0 + 2 <= dot;
        } else {
          assert at0 + 1 <= at;
        }
      }
    }
  }

  /** The scan finds a match exactly when one exists. */
  lemma EmailPatternIff(s: string)
    ensures MatchesEmailPattern(s) <==> exists at: nat, dot: nat :: at < |s| && dot < |s| && EmailMatchAt(s, at, dot)
  {
    EmailMatchFromIff(s, 0);
  }

  /** A string made only of whitespace: what `!s.trim()` tests. */
  predicate Blank(s: string)
  {
    forall i :: 0 <= i < |s| ==> IsWhitespace(s[i])
  }

  // ---------------------------------------------------------------------------
  // The mobile-number keystroke filter
  // ---------------------------------------------------------------------------

  /** What the mobile field can hold: nothing, or up to ten digits starting with 7, 8 or 9. */
  predicate MobileInvariant(m: string)
  {
    m == "" || (|m| <= MobileLength && HasMobilePrefix(m) && forall i :: 0 <= i < |m| ==> IsDigit(m[i]))
  }

  /**
   * The value a mobile keystroke stores, or None when the keystroke is
   * rejected: the digits of the input, unless they are non-empty without a
   * leading 7, 8 or 9, or longer than ten.
   */
  function FilterMobileInput(value: string): (r: Option<string>)
    ensures r.Some? ==> MobileInvariant(r.value)
    ensures r.Some? ==> r.value == Digits(value)
  {
    var numericValue := Digits(value);
    if |numericValue| > 0 && !HasMobilePrefix(numericValue) then None
    else if |numericValue| > MobileLength then None
    else Some(numericValue)
  }

  /** A keystroke whose digits do not start with 7, 8 or 9, or exceed ten, is rejected. */
  lemma FilterMobileRejects(value: string)
    ensures (|Digits(value)| > 0 && !HasMobilePrefix(Digits(value))) ==> FilterMobileInput(value) == None
    ensures |Digits(value)| > MobileLength ==> FilterMobileInput(value) == None
    ensures FilterMobileInput(value) == None ==>
      (|Digits(value)| > 0 && !HasMobilePrefix(Digits(value))) || |Digits(value)| > MobileLength
  {
  }

  /** Re-entering a value the field can already hold is accepted unchanged. */
  lemma FilterMobileKeepsValid(m: string)
    requires MobileInvariant(m)
    ensures FilterMobileInput(m) == Some(m)
  {
    DigitsOfDigits(m);
  }

  /** The mobile filter lets "9123456789" through unchanged. */
  lemma FilterMobileAccepts(good: string)
    requires good == "9123456789"
    ensures FilterMobileInput(good) == Some(good)
  {
    assert forall i :: 0 <= i < |good| ==> IsDigit(good[i]);
    FilterMobileKeepsValid(good);
  }

  /** The mobile filter stops "6123456789": its first digit is not 7, 8 or 9. */
  lemma FilterMobileStops(bad: string)
    requires bad == "6123456789"
    ensures FilterMobileInput(bad) == None
  {
    assert forall i :: 0 <= i < |bad| ==> IsDigit(bad[i]);
    DigitsOfDigits(bad);
    assert bad[0] == '6';
    assert !HasMobilePrefix(Digits(bad));
  }

  /**
   * The error map after editing field `name`: an existing non-empty message
   * for that field becomes "" and every other entry stays.
   */
  function ClearError(errors: map<Field, string>, name: Field): (r: map<Field, string>)
    ensures r.Keys == errors.Keys
    ensures name in errors ==> r[name] == ""
    ensures forall g :: g in errors && g != name ==> r[g] == errors[g]
  {
    if name in errors && errors[name] != "" then errors[name := ""] else errors
  }

  // ---------------------------------------------------------------------------
  // The validator
  // ---------------------------------------------------------------------------

  /** The check of a required text field: `message` when the trimmed value is empty. */
  function RequiredError(value: string, message: string): Option<string>
  {
    if Trim(value) == "" then Some(message) else None
  }

  /** The email check: required first, then the pattern. */
  function EmailError(email: string): Option<string>
  {
    if Trim(email) == "" then Some(EmailRequired)
    else if !MatchesEmailPattern(email) then Some(EmailInvalid)
    else None
  }

  /** The password check: required first, then the minimum length. */
  function PasswordError(password: string): Option<string>
  {
    if password == "" then Some(PasswordRequired)
    else if |password| < MinPasswordLength then Some(PasswordTooShort)
    else None
  }

  /** The confirmation check: the two entries must be equal. */
  function ConfirmPasswordError(password: string, confirmPassword: string): Option<string>
  {
    if password != confirmPassword then Some(PasswordsDiffer) else None
  }

  /** The mobile check: required, then the length, then the prefix. */
  function MobileNumberError(mobile: string): Option<string>
  {
    if mobile == "" then Some(MobileRequired)
    else if |mobile| != MobileLength then Some(MobileWrongLength)
    else if !HasMobilePrefix(mobile) then Some(MobileWrongPrefix)
    else None
  }

  /** The message `validateForm` records for field `f`, if any. */
  function FieldError(d: FormData, f: Field): Option<string>
  {
    match f
    case FullName => RequiredError(d.fullName, FullNameRequired)
    case Email => EmailError(d.email)
    case Username => RequiredError(d.username, UsernameRequired)
    case Password => PasswordError(d.password)
    case ConfirmPassword => ConfirmPasswordError(d.password, d.confirmPassword)
    case MobileNumber => MobileNumberError(d.mobileNumber)
  }

  /** The per-field outcome of every check, as one function. */
  function FieldErrors(d: FormData): Field -> Option<string>
  {
    f => FieldError(d, f)
  }

  /** A map holding, for each field whose outcome under `e` is a message, that message. */
  function ErrorMap(e: Field -> Option<string>): (m: map<Field, string>)
    ensures forall f :: f in m <==> e(f).Some?
    ensures forall f :: f in m ==> m[f] == e(f).value
  {
    EveryFieldListed();
    map f | f in AllFields && e(f).Some? :: e(f).value
  }

  lemma EveryFieldListed()
    ensures forall f: Field :: f in AllFields
  {
    forall f: Field ensures f in AllFields {
      match f
      case FullName =>
      case Email =>
      case Username =>
      case Password =>
      case ConfirmPassword =>
      case MobileNumber =>
    }
  }

  /** The error map `validateForm` builds: one entry per field that fails, holding that field's message. */
  function ErrorsFor(d: FormData): (m: map<Field, string>)
    ensures forall f :: f in m <==> FieldError(d, f).Some?
    ensures forall f :: f in m ==> m[f] == FieldError(d, f).value
  {
    ErrorMap(FieldErrors(d))
  }

  /** `m` with field `f`'s message recorded, when the check produced one. */
  function Record(m: map<Field, string>, f: Field, e: Option<string>): map<Field, string>
  {
    if e.Some? then m[f := e.value] else m
  }

  /** Recording field `f` leaves every other field's entry as it was. */
  lemma RecordOther(m: map<Field, string>, f: Field, o: Option<string>, g: Field)
    requires g != f
    ensures (g in Record(m, f, o)) == (g in m)
    ensures g in m ==> Record(m, f, o)[g] == m[g]
  {
  }

  /** Recording field `f` sets its entry exactly when there is a message. */
  lemma RecordSelf(m: map<Field, string>, f: Field, o: Option<string>)
    ensures (f in Record(m, f, o)) == (o.Some? || f in m)
    ensures o.Some? ==> Record(m, f, o)[f] == o.value
    ensures o.None? && f in m ==> Record(m, f, o)[f] == m[f]
  {
  }

  /** Recording the fields one after another, in the form's order, builds the error map. */
  lemma ErrorsInFieldOrder(e: Field -> Option<string>)
    ensures ErrorMap(e) ==
      Record(Record(Record(Record(Record(Record(map[], FullName, e(FullName)), Email, e(Email)),
        Username, e(Username)), Password, e(Password)), ConfirmPassword, e(ConfirmPassword)),
        MobileNumber, e(MobileNumber))
  {
    var m1 := Record(map[], FullName, e(FullName));
    var m2 := Record(m1, Email, e(Email));
    var m3 := Record(m2, Username, e(Username));
    var m4 := Record(m3, Password, e(Password));
    var m5 := Record(m4, ConfirmPassword, e(ConfirmPassword));
    var m6 := Record(m5, MobileNumber, e(MobileNumber));
    forall f
      ensures f in m6 <==> e(f).Some?
      ensures f in m6 ==> m6[f] == e(f).value
    {
      match f
      case FullName =>
        RecordSelf(map[], FullName, e(FullName));
        RecordOther(m1, Email, e(Email), f);
        RecordOther(m2, Username, e(Username), f);
        RecordOther(m3, Password, e(Password), f);
        RecordOther(m4, ConfirmPassword, e(ConfirmPassword), f);
        RecordOther(m5, MobileNumber, e(MobileNumber), f);
      case Email =>
        RecordSelf(m1, Email, e(Email));
        RecordOther(m2, Username, e(Username), f);
        RecordOther(m3, Password, e(Password), f);
        RecordOther(m4, ConfirmPassword, e(ConfirmPassword), f);
        RecordOther(m5, MobileNumber, e(MobileNumber), f);
      case Username =>
        RecordSelf(m2, Username, e(Username));
        RecordOther(m3, Password, e(Password), f);
        RecordOther(m4, ConfirmPassword, e(ConfirmPassword), f);
        RecordOther(m5, MobileNumber, e(MobileNumber), f);
      case Password =>
        RecordSelf(m3, Password, e(Password));
        RecordOther(m4, ConfirmPassword, e(ConfirmPassword), f);
        RecordOther(m5, MobileNumber, e(MobileNumber), f);
      case ConfirmPassword =>
        RecordSelf(m4, ConfirmPassword, e(ConfirmPassword));
        RecordOther(m5, MobileNumber, e(MobileNumber), f);
      case MobileNumber =>
        RecordSelf(m5, MobileNumber, e(MobileNumber));
    }
    assert m6.Keys == ErrorMap(e).Keys;
  }

  /** Every check of the form passes. */
  predicate Acceptable(d: FormData)
  {
    && !Blank(d.fullName)
    && !Blank(d.username)
    && !Blank(d.email) && MatchesEmailPattern(d.email)
    && |d.password| >= MinPasswordLength
    && d.password == d.confirmPassword
    && |d.mobileNumber| == MobileLength && HasMobilePrefix(d.mobileNumber)
  }

  /** The condition under which `validateForm` records nothing for field `f`. */
  predicate FieldAcceptable(d: FormData, f: Field)
  {
    match f
    case FullName => !Blank(d.fullName)
    case Email => !Blank(d.email) && MatchesEmailPattern(d.email)
    case Username => !Blank(d.username)
    case Password => |d.password| >= MinPasswordLength
    case ConfirmPassword => d.password == d.confirmPassword
    case MobileNumber => |d.mobileNumber| == MobileLength && HasMobilePrefix(d.mobileNumber)
  }

  /** A field draws no message exactly when its check passes. */
  lemma FieldErrorNoneIff(d: FormData, f: Field)
    ensures FieldError(d, f).None? <==> FieldAcceptable(d, f)
  {
    match f
    case FullName => TrimEmptyIff(d.fullName);
    case Email => TrimEmptyIff(d.email);
    case Username => TrimEmptyIff(d.username);
    case _ =>
  }

  /** A map keyed by fields is empty exactly when none of the six fields is a key. */
  lemma EmptyIffNoField(m: map<Field, string>)
    ensures m == map[] <==>
      FullName !in m && Email !in m && Username !in m && Password !in m && ConfirmPassword !in m && MobileNumber !in m
  {
    if m != map[] {
      var f :| f in m;
      match f
      case FullName =>
      case Email =>
      case Username =>
      case Password =>
      case ConfirmPassword =>
      case MobileNumber =>
    }
  }

  /** The error map is empty exactly when no field draws a message. */
  lemma ErrorsEmptyIffNoMessage(d: FormData)
    ensures ErrorsFor(d) == map[] <==>
      && FieldError(d, FullName).None? && FieldError(d, Email).None? && FieldError(d, Username).None?
      && FieldError(d, Password).None? && FieldError(d, ConfirmPassword).None? && FieldError(d, MobileNumber).None?
  {
    EmptyIffNoField(ErrorsFor(d));
  }

  /** Every check passes exactly when no field draws a message. */
  lemma AcceptableIffNoMessage(d: FormData)
    ensures Acceptable(d) <==>
      && FieldError(d, FullName).None? && FieldError(d, Email).None? && FieldError(d, Username).None?
      && FieldError(d, Password).None? && FieldError(d, ConfirmPassword).None? && FieldError(d, MobileNumber).None?
  {
    FieldErrorNoneIff(d, FullName);
    FieldErrorNoneIff(d, Email);
    FieldErrorNoneIff(d, Username);
    FieldErrorNoneIff(d, Password);
    FieldErrorNoneIff(d, ConfirmPassword);
    FieldErrorNoneIff(d, MobileNumber);
  }

  /** `Object.keys(m).length === 0` holds exactly for the empty map. */
  lemma NoKeysIffEmpty(m: map<Field, string>)
    ensures |m.Keys| == 0 <==> m == map[]
  {
    if m != map[] {
      var f :| f in m;
      assert f in m.Keys;
    }
  }

  /** The form has no errors exactly when every check passes. */
  lemma ErrorsEmptyIff(d: FormData)
    ensures ErrorsFor(d) == map[] <==> Acceptable(d)
  {
    ErrorsEmptyIffNoMessage(d);
    AcceptableIffNoMessage(d);
  }

  /**
   * The password's length is checked apart from the confirmation: "abc12"
   * is too short, "abc123" is not, and a mismatch is reported either way.
   */
  lemma PasswordChecksIndependent(d: FormData)
    ensures FieldError(d.(password := "abc12"), Password) == Some(PasswordTooShort)
    ensures FieldError(d.(password := "abc123"), Password) == None
    ensures FieldError(d.(password := "abc12", confirmPassword := "abc123"), ConfirmPassword) == Some(PasswordsDiffer)
    ensures FieldError(d.(password := "abc123", confirmPassword := "abc12"), ConfirmPassword) == Some(PasswordsDiffer)
    ensures d.password == d.confirmPassword ==> FieldError(d, ConfirmPassword) == None
  {
  }

  /**
   * A mobile value the keystroke filter lets through never draws the prefix
   * message: it is either missing or too short.
   */
  lemma FilteredMobileNeverWrongPrefix(d: FormData)
    requires MobileInvariant(d.mobileNumber)
    ensures FieldError(d, MobileNumber) != Some(MobileWrongPrefix)
    ensures FieldError(d, MobileNumber) == Some(MobileWrongLength) ==> 0 < |d.mobileNumber| < MobileLength
  {
  }

  /** The email format is judged only for a non-blank email, and the pattern need not cover the whole value. */
  lemma EmailChecks(d: FormData)
    ensures FieldError(d, Email) == Some(EmailInvalid) ==> !Blank(d.email)
    ensures Blank(d.email) ==> FieldError(d, Email) == Some(EmailRequired)
  {
    TrimEmptyIff(d.email);
  }

  /** "john doe@mail.com" passes the email check: the pattern may match the part after the space. */
  lemma EmailExampleAccepted(d: FormData, spaced: string)
    requires spaced == "john doe@mail.com"
    ensures FieldError(d.(email := spaced), Email) == None
  {
    assert spaced[0] == 'j';
    TrimEmptyIff(spaced);
    assert spaced[7] == 'e' && spaced[8] == '@' && spaced[13] == '.' && spaced[14] == 'c';
    assert spaced[9..13] == "mail";
    assert NoWhitespace("mail");
    assert EmailMatchAt(spaced, 8, 13);
    EmailPatternIff(spaced);
  }

  /** "a@b" fails the email check: there is no dot after the "@". */
  lemma EmailExampleRejected(d: FormData, short: string)
    requires short == "a@b"
    ensures FieldError(d.(email := short), Email) == Some(EmailInvalid)
  {
    assert short[0] == 'a';
    TrimEmptyIff(short);
    EmailPatternIff(short);
  }

  // ---------------------------------------------------------------------------
  // The checks of validateForm, one field at a time
  // ---------------------------------------------------------------------------

  // Each method below is the statement-by-statement form of one `if` block of
  // `validateForm`; its contract ties it to the field's error function above.

  method CheckFullName(d: FormData, errors: map<Field, string>) returns (r: map<Field, string>)
    ensures r == Record(errors, FullName, RequiredError(d.fullName, FullNameRequired))
  {
    r := errors;
    if Trim(d.fullName) == "" {
      r := r[FullName := FullNameRequired];
    }
  }

  method CheckEmail(d: FormData, errors: map<Field, string>) returns (r: map<Field, string>)
    ensures r == Record(errors, Email, EmailError(d.email))
  {
    r := errors;
    if Trim(d.email) == "" {
      r := r[Email := EmailRequired];
    } else if !MatchesEmailPattern(d.email) {
      r := r[Email := EmailInvalid];
    }
  }

  method CheckUsername(d: FormData, errors: map<Field, string>) returns (r: map<Field, string>)
    ensures r == Record(errors, Username, RequiredError(d.username, UsernameRequired))
  {
    r := errors;
    if Trim(d.username) == "" {
      r := r[Username := UsernameRequired];
    }
  }

  method CheckPassword(d: FormData, errors: map<Field, string>) returns (r: map<Field, string>)
    ensures r == Record(errors, Password, PasswordError(d.password))
  {
    r := errors;
    if d.password == "" {
      r := r[Password := PasswordRequired];
    } else if |d.password| < MinPasswordLength {
      r := r[Password := PasswordTooShort];
    }
  }

  method CheckConfirmPassword(d: FormData, errors: map<Field, string>) returns (r: map<Field, string>)
    ensures r == Record(errors, ConfirmPassword, ConfirmPasswordError(d.password, d.confirmPassword))
  {
    r := errors;
    if d.password != d.confirmPassword {
      r := r[ConfirmPassword := PasswordsDiffer];
    }
  }

  method CheckMobileNumber(d: FormData, errors: map<Field, string>) returns (r: map<Field, string>)
    ensures r == Record(errors, MobileNumber, MobileNumberError(d.mobileNumber))
  {
    r := errors;
    if d.mobileNumber == "" {
      r := r[MobileNumber := MobileRequired];
    } else if |d.mobileNumber| != MobileLength {
      r := r[MobileNumber := MobileWrongLength];
    } else if !HasMobilePrefix(d.mobileNumber) {
      r := r[MobileNumber := MobileWrongPrefix];
    }
  }

  // ---------------------------------------------------------------------------
  // The form's state
  // ---------------------------------------------------------------------------

  class SignupForm {
    var formData: FormData
    var errors: map<Field, string>

    /** The invariant the keystroke filter maintains. */
    ghost predicate Valid()
      reads this
    {
      MobileInvariant(formData.mobileNumber)
    }

    constructor ()
      ensures Valid()
      ensures formData == EmptyForm && errors == map[]
    {
      formData := EmptyForm;
      errors := map[];
    }

    /** `handleChange`: one keystroke in field `name` whose input now reads `value`. */
    method HandleChange(name: Field, value: string)
      modifies this
      ensures old(Valid()) ==> Valid()
      ensures name == MobileNumber && FilterMobileInput(value).None? ==>
        formData == old(formData) && errors == old(errors)
      ensures name == MobileNumber && FilterMobileInput(value).Some? ==>
        formData == old(formData).With(MobileNumber, FilterMobileInput(value).value)
        && errors == ClearError(old(errors), name)
      ensures name != MobileNumber ==>
        formData == old(formData).With(name, value) && errors == ClearError(old(errors), name)
    {
      if name == MobileNumber {
        var numericValue := Digits(value);
        if |numericValue| > 0 && !HasMobilePrefix(numericValue) {
          return;
        }
        if |numericValue| > MobileLength {
          return;
        }
        formData := formData.With(MobileNumber, numericValue);
      } else {
        formData := formData.With(name, value);
      }
      if name in errors && errors[name] != "" {
        errors := errors[name := ""];
      }
    }

    /** `validateForm`: replace the error map by the checks' results and report whether it is empty. */
    method ValidateForm() returns (ok: bool)
      modifies this`errors
      ensures errors == ErrorsFor(formData)
      ensures ok <==> errors == map[]
      ensures ok <==> Acceptable(formData)
    {
      var d := formData;
      var newErrors: map<Field, string> := map[];
      newErrors := CheckFullName(d, newErrors);
      newErrors := CheckEmail(d, newErrors);
      newErrors := CheckUsername(d, newErrors);
      newErrors := CheckPassword(d, newErrors);
      newErrors := CheckConfirmPassword(d, newErrors);
      newErrors := CheckMobileNumber(d, newErrors);
      ErrorsInFieldOrder(FieldErrors(d));
      assert newErrors == ErrorsFor(d);
      errors := newErrors;
      ok := |newErrors.Keys| == 0;
      NoKeysIffEmpty(newErrors);
      ErrorsEmptyIff(d);
    }

    /** `handleSubmit`: validate, and go back to the home page when the form is acceptable. */
    method HandleSubmit() returns (navigateHome: bool)
      modifies this`errors
      ensures errors == ErrorsFor(formData)
      ensures navigateHome <==> Acceptable(formData)
    {
      navigateHome := ValidateForm();
    }
  }
}
