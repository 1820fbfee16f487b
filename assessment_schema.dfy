/**
 * The `assessment` collection's schema: an assessment record with its required fields,
 * defaults and the `totalMarks` minimum, and the embedded roster of result entries whose
 * status is one of three names. Object ids are natural numbers.
 */
module AssessmentSchema {
  import opened Wrappers

  type Id = nat

  datatype Status = Pending | Submitted | Completed

  /** The name stored in the document. */
  function StatusName(s: Status): string
  {
    match s
    case Pending => "Pending"
    case Submitted => "Submitted"
    case Completed => "Completed"
  }

  /** The `enum` check: only the three names are status values. */
  function ParseStatus(name: string): (r: Option<Status>)
    ensures r.Some? <==> name in {"Pending", "Submitted", "Completed"}
  {
    if name == "Pending" then Some(Pending)
    else if name == "Submitted" then Some(Submitted)
    else if name == "Completed" then Some(Completed)
    else None
  }

  lemma ParseStatusName(s: Status)
    ensures ParseStatus(StatusName(s)) == Some(s)
  {
  }

  lemma StatusNameOfParse(name: string)
    requires ParseStatus(name).Some?
    ensures StatusName(ParseStatus(name).value) == name
  {
  }

  /**
   * One roster entry. `marks` None is the stored null (or an unset value); `status` None is a
   * status that was assigned undefined and so is absent from the document.
   */
  datatype ResultEntry = ResultEntry(studentId: Id, name: string, marks: Option<real>, status: Option<Status>)

  /** An entry built with the schema defaults: marks null, status Pending. */
  function NewEntry(studentId: Id, name: string): (e: ResultEntry)
    ensures e.studentId == studentId && e.name == name
    ensures e.marks.None? && e.status == Some(Pending)
  {
    ResultEntry(studentId, name, None, Some(Pending))
  }

  /**
   * An assessment document. Optional-typed fields are None when unset; `date` holds the
   * text it was cast from.
   */
  datatype Assessment = Assessment(
    title: Option<string>,
    description: Option<string>,
    date: Option<string>,
    totalMarks: Option<real>,
    subjectId: Option<Id>,
    teacherId: Option<Id>,
    questionPdfUrl: Option<Id>,
    solutionPdfUrl: Option<Id>,
    isCompleted: bool,
    students: seq<ResultEntry>)

  /** `new Assessment({...})` with the given fields: the defaults fill the rest. */
  function NewAssessment(title: Option<string>, description: Option<string>, date: Option<string>,
                         totalMarks: Option<real>, subjectId: Option<Id>, teacherId: Option<Id>,
                         questionPdfUrl: Option<Id>): (a: Assessment)
    ensures a.title == title && a.description == description && a.date == date
    ensures a.totalMarks == totalMarks && a.subjectId == subjectId && a.teacherId == teacherId
    ensures a.questionPdfUrl == questionPdfUrl
    ensures a.solutionPdfUrl.None? && !a.isCompleted && a.students == []
  {
    Assessment(title, description, date, totalMarks, subjectId, teacherId, questionPdfUrl, None, false, [])
  }

  /** The schema's required fields. */
  datatype Field = Title | Date | TotalMarks | SubjectId | TeacherId | QuestionPdfUrl

  datatype Violation = Required(field: Field) | BelowMinimum(field: Field)

  /** A required string or date is missing when unset or empty. */
  predicate MissingText(v: Option<string>) { v.None? || v.value == "" }

  /** The document passes the validators `save()` runs. */
  predicate Conforms(a: Assessment)
  {
    !MissingText(a.title) && !MissingText(a.date) && a.totalMarks.Some? && a.totalMarks.value >= 1.0
    && a.subjectId.Some? && a.teacherId.Some? && a.questionPdfUrl.Some?
  }

  /** One validator's report: the violation when the check fails, nothing otherwise. */
  function Check(fails: bool, v: Violation): (r: seq<Violation>)
    ensures r == [] <==> !fails
    ensures r == [] || r == [v]
  {
    if fails then [v] else []
  }

  /** What `save()`'s validation reports, field by field in schema order. */
  function Violations(a: Assessment): (vs: seq<Violation>)
    ensures vs == [] <==> Conforms(a)
    ensures |vs| <= 6
  {
    FieldViolations(a, Title) + FieldViolations(a, Date) + FieldViolations(a, TotalMarks)
    + FieldViolations(a, SubjectId) + FieldViolations(a, TeacherId) + FieldViolations(a, QuestionPdfUrl)
  }

  /**
   * One field's validators: `required` on every listed field, and `min: 1` on `totalMarks`,
   * which only runs when a value is present.
   */
  function FieldViolations(a: Assessment, f: Field): (r: seq<Violation>)
    ensures |r| <= 1
    ensures forall v :: v in r ==> v.field == f
  {
    match f
    case Title => Check(MissingText(a.title), Required(Title))
    case Date => Check(MissingText(a.date), Required(Date))
    case TotalMarks =>
      if a.totalMarks.None? then [Required(TotalMarks)]
      else Check(a.totalMarks.value < 1.0, BelowMinimum(TotalMarks))
    case SubjectId => Check(a.subjectId.None?, Required(SubjectId))
    case TeacherId => Check(a.teacherId.None?, Required(TeacherId))
    case QuestionPdfUrl => Check(a.questionPdfUrl.None?, Required(QuestionPdfUrl))
  }

  /** A violation is in the report exactly when its own field's validators raise it. */
  lemma InViolations(a: Assessment, v: Violation)
    ensures v in Violations(a) <==> v in FieldViolations(a, v.field)
  {
    var t, d, m := FieldViolations(a, Title), FieldViolations(a, Date), FieldViolations(a, TotalMarks);
    var s, h, q := FieldViolations(a, SubjectId), FieldViolations(a, TeacherId), FieldViolations(a, QuestionPdfUrl);
    assert Violations(a) == t + d + m + s + h + q;
  }

  /** Each validator reports its own field: the report names a field exactly when its check fails. */
  lemma ViolationsNameFields(a: Assessment)
    ensures BelowMinimum(TotalMarks) in Violations(a) <==> a.totalMarks.Some? && a.totalMarks.value < 1.0
    ensures Required(TotalMarks) in Violations(a) <==> a.totalMarks.None?
    ensures Required(Title) in Violations(a) <==> MissingText(a.title)
    ensures Required(Date) in Violations(a) <==> MissingText(a.date)
    ensures Required(SubjectId) in Violations(a) <==> a.subjectId.None?
    ensures Required(TeacherId) in Violations(a) <==> a.teacherId.None?
    ensures Required(QuestionPdfUrl) in Violations(a) <==> a.questionPdfUrl.None?
  {
    InViolations(a, BelowMinimum(TotalMarks));
    InViolations(a, Required(TotalMarks));
    InViolations(a, Required(Title));
    InViolations(a, Required(Date));
    InViolations(a, Required(SubjectId));
    InViolations(a, Required(TeacherId));
    InViolations(a, Required(QuestionPdfUrl));
  }

  /** Validation looks at the top-level fields only: the roster, `isCompleted` and the optional fields never matter. */
  lemma ViolationsIgnoreOptionalFields(a: Assessment, description: Option<string>, solution: Option<Id>,
                                       done: bool, students: seq<ResultEntry>)
    ensures Violations(a.(description := description, solutionPdfUrl := solution,
                          isCompleted := done, students := students)) == Violations(a)
  {
  }

  /** A fresh document conforms exactly when every required field is given properly. */
  lemma NewAssessmentConforms(title: Option<string>, description: Option<string>, date: Option<string>,
                              totalMarks: Option<real>, subjectId: Option<Id>, teacherId: Option<Id>,
                              questionPdfUrl: Option<Id>)
    ensures Conforms(NewAssessment(title, description, date, totalMarks, subjectId, teacherId, questionPdfUrl))
      <==> !MissingText(title) && !MissingText(date) && totalMarks.Some? && totalMarks.value >= 1.0
           && subjectId.Some? && teacherId.Some? && questionPdfUrl.Some?
  {
  }
}
