/**
 * The JSON shapes the React pages read: assessments as the API sends them, their roster
 * entries, and references that are either a bare id or a populated object.
 */
module ClientTypes {
  import opened Wrappers
  import opened Sequences

  /** An arbitrary JSON-like payload, for store fields the pages never look inside. */
  datatype JsValue =
    | JsUndefined
    | JsNull
    | JsBool(b: bool)
    | JsNum(n: real)
    | JsStr(s: string)
    | JsArray(items: seq<JsValue>)
    | JsObject(fields: map<string, JsValue>)

  /** A roster mark: absent, the stored null, or a number. */
  datatype Marks = MarksUndefined | MarksNull | MarksNum(value: real)

  /** JavaScript truthiness of a mark: 0 and the two empty values are falsy. */
  predicate MarksTruthy(m: Marks) { m.MarksNum? && m.value != 0.0 }

  /**
   * A reference field: unset (null or undefined), an id string, or a populated object with
   * an optional `_id` and a display name (`subName`, `name`).
   */
  datatype Ref = NoRef | RefId(id: string) | RefObject(objectId: Option<string>, display: Option<string>)

  predicate RefTruthy(r: Ref) { r.RefObject? || (r.RefId? && r.id != "") }

  /** How a truthy reference prints inside a template literal. */
  function RefText(r: Ref): (t: string)
    requires RefTruthy(r)
    ensures r.RefId? ==> t == r.id
  {
    if r.RefId? then r.id else "[object Object]"
  }

  datatype ClientResult = ClientResult(studentId: Ref, name: string, marks: Marks, status: Option<string>)

  datatype ClientAssessment = ClientAssessment(
    id: string,
    title: string,
    totalMarks: real,
    isCompleted: bool,
    subject: Ref,
    questionPdfUrl: Ref,
    solutionPdfUrl: Ref,
    students: Option<seq<ClientResult>>)

  function ResultStudent(r: ClientResult): Ref
  {
    r.studentId
  }

  /** `students.findIndex(s => s.studentId === userId)`: only an id string can be `===` to the user's id. */
  function ResultIndex(students: seq<ClientResult>, userId: string): int
  {
    FirstIndex(students, ResultStudent, RefId(userId))
  }

  /**
   * `assessment.students?.find(s => s.studentId === userId)`: the user's first roster entry,
   * None when there is no roster or no entry for the user.
   */
  function StudentResult(a: ClientAssessment, userId: string): (r: Option<ClientResult>)
    ensures a.students.None? ==> r.None?
    ensures a.students.Some? ==>
      var k := ResultIndex(a.students.value, userId);
      (r.None? <==> k == -1) && (r.Some? ==> r.value == a.students.value[k])
  {
    if a.students.None? then None
    else
      var k := ResultIndex(a.students.value, userId);
      if k == -1 then None else Some(a.students.value[k])
  }

  /**
   * A class student as the class-students request returns it (`_id`, `name`, `rollNum`);
   * the roll number is handled as the text the pages compare and search.
   */
  datatype ClassStudent = ClassStudent(id: string, name: string, rollNum: string)

  /** The MUI chip colours the pages choose between. */
  datatype ChipColor = SuccessChip | WarningChip | ErrorChip | InfoChip

  /** `${REACT_APP_BASE_URL}/files/${id}/view`, the route that streams a stored PDF. */
  function FileViewUrl(base: string, id: string): (url: string)
    ensures |url| == |base| + |id| + 12
    ensures url[..|base|] == base && url[|base| + 7..|base| + 7 + |id|] == id
  {
    base + "/files/" + id + "/view"
  }

  /** Different files get different viewer URLs. */
  lemma FileViewUrlInjective(base: string, id1: string, id2: string)
    requires FileViewUrl(base, id1) == FileViewUrl(base, id2)
    ensures id1 == id2
  {
    var u := FileViewUrl(base, id1);
    assert |id1| == |id2|;
    assert id1 == u[|base| + 7..|base| + 7 + |id1|] == id2;
  }
}
