/**
 The course-registration form with its submissions table: a three-field
 form, validation with a single error message, newest-first rows that can
 be deleted, and the row numbers the table shows.
 */
module Registration {
  import opened JsString
  import opened EmailPatterns
  import Seqs

  datatype Form = Form(name: string, email: string, course: string)

  datatype Field = NameField | EmailField | CourseField

  /** A submitted row: the form's values as typed, under a clock-reading id. */
  datatype Row = Row(id: int, name: string, email: string, course: string)

  datatype State = State(form: Form, rows: seq<Row>, error: string)

  const EmptyForm: Form := Form("", "", "")

  const Start: State := State(EmptyForm, [], "")

  const RequiredMessage: string := "All fields are required."
  const InvalidEmailMessage: string := "Please enter a valid email."

  /** The outcome of `validate`: whether to go on, and the error it leaves behind. */
  datatype Verdict = Verdict(ok: bool, error: string)

  function Get(f: Form, field: Field): string
  {
    match field
    case NameField => f.name
    case EmailField => f.email
    case CourseField => f.course
  }

  /** `handleChange`: the edited field takes the typed value; the other two
      fields keep theirs. */
  function Change(f: Form, field: Field, value: string): (r: Form)
    ensures Get(r, field) == value
    ensures forall other: Field | other != field :: Get(r, other) == Get(f, other)
  {
    match field
    case NameField => f.(name := value)
    case EmailField => f.(email := value)
    case CourseField => f.(course := value)
  }

  /** `validate`: the required-field check comes first and wins; only a
      form with all three fields non-blank has its e-mail matched, against
      the anchored pattern. Success leaves the empty error message. */
  function Validate(f: Form): (v: Verdict)
    ensures (IsBlank(f.name) || IsBlank(f.email) || IsBlank(f.course)) ==> v == Verdict(false, RequiredMessage)
    ensures !IsBlank(f.name) && !IsBlank(f.email) && !IsBlank(f.course) && !MatchesStrictEmail(f.email) ==>
      v == Verdict(false, InvalidEmailMessage)
    ensures !IsBlank(f.name) && !IsBlank(f.email) && !IsBlank(f.course) && MatchesStrictEmail(f.email) ==>
      v == Verdict(true, "")
  {
    TrimIsEmptyIffBlank(f.name);
    TrimIsEmptyIffBlank(f.email);
    TrimIsEmptyIffBlank(f.course);
    if TrimIsEmpty(f.name) || TrimIsEmpty(f.email) || TrimIsEmpty(f.course) then
      Verdict(false, RequiredMessage)
    else if !MatchesStrictEmail(f.email) then
      Verdict(false, InvalidEmailMessage)
    else
      Verdict(true, "")
  }

  /** The forms `handleSubmit` records: name and course not blank and the
      e-mail matched by the anchored pattern. */
  predicate Accepts(f: Form)
  {
    !IsBlank(f.name) && !IsBlank(f.course) && MatchesStrictEmail(f.email)
  }

  /** The form passes exactly when it is one `Accepts` describes: an address
      the pattern accepts is never blank, so the required check adds nothing
      for the e-mail. */
  lemma ValidateAccepts(f: Form)
    ensures Validate(f).ok <==> Accepts(f)
  {
    if MatchesStrictEmail(f.email) {
      StrictEmailIsNotBlank(f.email);
    }
  }

  /** `handleSubmit` with the clock reading `id`: an acceptable form becomes
      the first row, ahead of all earlier rows, the form is emptied and the
      error cleared; any other form stays, rows untouched, under the message
      of the first check it fails. */
  function Submit(s: State, id: int): (r: State)
    ensures Accepts(s.form) ==>
      && r.rows == [Row(id, s.form.name, s.form.email, s.form.course)] + s.rows
      && r.form == EmptyForm
      && r.error == ""
    ensures !Accepts(s.form) ==> r.rows == s.rows && r.form == s.form
    ensures !Accepts(s.form) ==>
      r.error == (if IsBlank(s.form.name) || IsBlank(s.form.email) || IsBlank(s.form.course) then RequiredMessage
                  else InvalidEmailMessage)
  {
    ValidateAccepts(s.form);
    var v := Validate(s.form);
    if !v.ok then s.(error := v.error)
    else State(EmptyForm, [Row(id, s.form.name, s.form.email, s.form.course)] + s.rows, v.error)
  }

  /** The filter predicate of `handleDelete(id)`. */
  function KeepsId(id: int): Row -> bool
  {
    (r: Row) => r.id != id
  }

  /** `handleDelete(id)`: every row with `id` goes, every other row stays,
      and the survivors keep their order. */
  function Delete(s: State, id: int): (r: State)
    ensures forall k | 0 <= k < |r.rows| :: r.rows[k].id != id
    ensures forall row | row in s.rows && row.id != id :: row in r.rows
    ensures forall row | row in r.rows :: row in s.rows
    ensures Seqs.IsSubsequence(r.rows, s.rows)
    ensures |r.rows| == Seqs.Count(KeepsId(id), s.rows)
    ensures r == s.(rows := r.rows)
  {
    s.(rows := Seqs.Filter(KeepsId(id), s.rows))
  }

  /** Deleting the same id twice is the same as deleting it once. */
  lemma DeleteIdempotent(s: State, id: int)
    ensures Delete(Delete(s, id), id) == Delete(s, id)
  {
    Seqs.FilterIdempotent(KeepsId(id), s.rows);
  }

  /** The Reset button empties the form; rows and error message stay. */
  function Reset(s: State): (r: State)
    ensures r.form == EmptyForm && r.rows == s.rows && r.error == s.error
  {
    s.(form := EmptyForm)
  }

  /** The number shown in the first column of the row at `idx`: `rows.length - idx`. */
  function RowNumber(rows: seq<Row>, idx: nat): int
  {
    |rows| - idx
  }

  /** The numbers down the table, top to bottom. */
  function RowNumbers(rows: seq<Row>): (ns: seq<int>)
    ensures |ns| == |rows|
    ensures forall idx | 0 <= idx < |rows| :: ns[idx] == RowNumber(rows, idx)
  {
    seq(|rows|, idx requires 0 <= idx < |rows| => RowNumber(rows, idx))
  }

  /** The table counts down: the top (newest) row shows the row count, the
      bottom row shows 1, each row shows one less than the row above, and
      the numbers are exactly 1..n. */
  lemma RowNumbersCountDown(rows: seq<Row>)
    ensures var ns := RowNumbers(rows);
      && (|rows| > 0 ==> ns[0] == |rows| && ns[|rows| - 1] == 1)
      && (forall idx | 0 < idx < |rows| :: ns[idx] == ns[idx - 1] - 1)
      && (forall m :: m in ns <==> 1 <= m <= |rows|)
  {
    var ns := RowNumbers(rows);
    forall m | 1 <= m <= |rows|
      ensures m in ns
    {
      assert ns[|rows| - m] == m;
    }
  }

  /** Putting a row on top numbers it n + 1 and leaves the number every
      earlier row shows unchanged; a successful submission does exactly this. */
  lemma PrependKeepsRowNumbers(row: Row, rows: seq<Row>)
    ensures RowNumbers([row] + rows)[0] == |rows| + 1
    ensures forall idx | 0 <= idx < |rows| :: RowNumbers([row] + rows)[idx + 1] == RowNumbers(rows)[idx]
  {
  }

  /** A valid submission lands on top, empties the form and clears the error. */
  lemma ValidSubmitScenario(id: int)
    ensures var f := Change(Change(Change(EmptyForm, NameField, "Ann"), EmailField, "a@b.c"), CourseField, "CS");
      var r := Submit(Start.(form := f), id);
      r.rows == [Row(id, "Ann", "a@b.c", "CS")] && r.form == EmptyForm && r.error == ""
  {
    var f := Form("Ann", "a@b.c", "CS");
    assert Change(Change(Change(EmptyForm, NameField, "Ann"), EmailField, "a@b.c"), CourseField, "CS") == f;
    ShortestAddressAccepted();
    assert !IsBlank(f.name) by { assert !IsSpace(f.name[0]); }
    assert !IsBlank(f.course) by { assert !IsSpace(f.course[0]); }
    assert Accepts(f);
  }

  /** A blank course is refused with the required-field message even though
      the e-mail is fine; rows and form stay as they were. */
  lemma BlankCourseScenario(id: int)
    ensures var f := Form("Ann", "a@b.c", " ");
      var r := Submit(Start.(form := f), id);
      r.rows == [] && r.form == f && r.error == RequiredMessage
  {
    var f := Form("Ann", "a@b.c", " ");
    assert IsBlank(f.course);
    assert Validate(f) == Verdict(false, RequiredMessage);
  }
}
