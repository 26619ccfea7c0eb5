/**
 The signup form: four fields validated independently into a map from
 field name to message; submission shows the map and empties the form only
 when the map is empty.
 */
module Signup {
  import opened JsString
  import opened EmailPatterns

  datatype Form = Form(name: string, email: string, password: string, confirmPassword: string)

  datatype Field = NameField | EmailField | PasswordField | ConfirmPasswordField

  /** Error messages keyed by the input's `name` attribute. */
  type Errors = map<string, string>

  datatype State = State(form: Form, errors: Errors)

  const EmptyForm: Form := Form("", "", "", "")

  const Start: State := State(EmptyForm, map[])

  const NameKey: string := "name"
  const EmailKey: string := "email"
  const PasswordKey: string := "password"
  const ConfirmKey: string := "confirmPassword"

  const FieldNames: set<string> := {NameKey, EmailKey, PasswordKey, ConfirmKey}

  const NameRequired: string := "Name is required"
  const EmailRequired: string := "Email is required"
  const EmailInvalid: string := "Email is invalid"
  const PasswordTooShort: string := "Password must be at least 6 characters"
  const PasswordsDiffer: string := "Passwords do not match"

  /** Shortest accepted password, in characters. */
  const MinPasswordLength: nat := 6

  function Get(f: Form, field: Field): string
  {
    match field
    case NameField => f.name
    case EmailField => f.email
    case PasswordField => f.password
    case ConfirmPasswordField => f.confirmPassword
  }

  /** `handleChange`: the edited field takes the typed value; the other
      three keep theirs. */
  function Change(f: Form, field: Field, value: string): (r: Form)
    ensures Get(r, field) == value
    ensures forall other: Field | other != field :: Get(r, other) == Get(f, other)
  {
    match field
    case NameField => f.(name := value)
    case EmailField => f.(email := value)
    case PasswordField => f.(password := value)
    case ConfirmPasswordField => f.(confirmPassword := value)
  }

  /** What `validate` reports, stated field by field: which keys are present
      and with which message. The e-mail gets at most one message: "required"
      when blank, otherwise "invalid" when no part of it matches the
      unanchored pattern. */
  predicate Reports(f: Form, errs: Errors)
  {
    && errs.Keys <= FieldNames
    && (NameKey in errs <==> IsBlank(f.name))
    && (NameKey in errs ==> errs[NameKey] == NameRequired)
    && (EmailKey in errs <==> !MatchesLooseEmail(f.email))
    && (EmailKey in errs ==> errs[EmailKey] == (if IsBlank(f.email) then EmailRequired else EmailInvalid))
    && (PasswordKey in errs <==> |f.password| < MinPasswordLength)
    && (PasswordKey in errs ==> errs[PasswordKey] == PasswordTooShort)
    && (ConfirmKey in errs <==> f.password != f.confirmPassword)
    && (ConfirmKey in errs ==> errs[ConfirmKey] == PasswordsDiffer)
  }

  /** The form `handleSubmit` accepts: every check passes. */
  predicate Accepts(f: Form)
  {
    !IsBlank(f.name) && MatchesLooseEmail(f.email) && |f.password| >= MinPasswordLength && f.password == f.confirmPassword
  }

  /** The field-by-field description leaves no freedom: two error maps that
      both fit it are the same map. */
  lemma ReportsDetermineErrors(f: Form, a: Errors, b: Errors)
    requires Reports(f, a) && Reports(f, b)
    ensures a == b
  {
  }

  /** `validate`: four independent checks, each adding its own key. */
  function Validate(f: Form): (errs: Errors)
    ensures Reports(f, errs)
  {
    TrimIsEmptyIffBlank(f.name);
    TrimIsEmptyIffBlank(f.email);
    LooseEmailIsNotBlank(f.email);
    var e1: Errors := if TrimIsEmpty(f.name) then map[NameKey := NameRequired] else map[];
    var e2 :=
      if TrimIsEmpty(f.email) then e1[EmailKey := EmailRequired]
      else if !MatchesLooseEmail(f.email) then e1[EmailKey := EmailInvalid]
      else e1;
    var e3 := if |f.password| < MinPasswordLength then e2[PasswordKey := PasswordTooShort] else e2;
    if f.password != f.confirmPassword then e3[ConfirmKey := PasswordsDiffer] else e3
  }

  /** The form is accepted (no errors at all) exactly when the name is not
      blank, the e-mail contains a match of the pattern, the password has at
      least six characters and the confirmation repeats it. */
  lemma ValidateAccepts(f: Form)
    ensures |Validate(f)| == 0 <==> Accepts(f)
  {
    var errs := Validate(f);
    if |errs| == 0 {
      assert errs.Keys == {};
    } else {
      var k :| k in errs.Keys;
    }
  }

  /** Each message depends only on its own field(s): two forms that agree on
      a field get the same verdict for it, whatever the other fields hold.
      The confirmation check reads only the two password fields. */
  lemma ChecksAreIndependent(f: Form, g: Form)
    ensures f.name == g.name ==> (NameKey in Validate(f) <==> NameKey in Validate(g))
    ensures f.email == g.email ==>
      (EmailKey in Validate(f) <==> EmailKey in Validate(g)) &&
      (EmailKey in Validate(f) ==> Validate(f)[EmailKey] == Validate(g)[EmailKey])
    ensures f.password == g.password ==> (PasswordKey in Validate(f) <==> PasswordKey in Validate(g))
    ensures f.password == g.password && f.confirmPassword == g.confirmPassword ==>
      (ConfirmKey in Validate(f) <==> ConfirmKey in Validate(g))
  {
  }

  /** `handleSubmit`: the errors shown are exactly those the form has; an
      acceptable form is emptied, any other form is kept for correction. */
  function Submit(s: State): (r: State)
    ensures Reports(s.form, r.errors)
    ensures Accepts(s.form) ==> r.form == EmptyForm
    ensures !Accepts(s.form) ==> r.form == s.form
  {
    ValidateAccepts(s.form);
    var errs := Validate(s.form);
    if |errs| == 0 then State(EmptyForm, errs) else State(s.form, errs)
  }

  /** Submission shows exactly the map `validate` returns, and empties the
      form exactly when that map is empty. */
  lemma SubmitShowsValidate(s: State)
    ensures Submit(s).errors == Validate(s.form)
    ensures Submit(s).form == (if |Validate(s.form)| == 0 then EmptyForm else s.form)
  {
  }

  /** Exactly six characters is long enough; five is not. */
  lemma PasswordBoundary(f: Form)
    ensures |f.password| == 6 ==> PasswordKey !in Validate(f)
    ensures |f.password| == 5 ==> PasswordKey in Validate(f)
  {
  }

  /** Submitting the empty form reports every field but the confirmation
      (two empty passwords agree) and keeps the form. */
  lemma EmptyFormScenario()
    ensures var r := Submit(Start);
      r.errors == map[NameKey := NameRequired, EmailKey := EmailRequired, PasswordKey := PasswordTooShort] &&
      r.form == EmptyForm
  {
    var errs := Validate(EmptyForm);
    assert IsBlank(EmptyForm.name) && IsBlank(EmptyForm.email);
    assert !MatchesLooseEmail(EmptyForm.email);
    assert |EmptyForm.password| < MinPasswordLength;
    assert EmptyForm.password == EmptyForm.confirmPassword;
    var expected := map[NameKey := NameRequired, EmailKey := EmailRequired, PasswordKey := PasswordTooShort];
    assert errs.Keys == expected.Keys;
    assert errs == expected;
  }
}
