/**
 * The teacher's create-assessment form: the field values, the chosen question PDF, the
 * validation rules and the multipart payload handed to the create thunk.
 */
module TeacherCreateAssessmentPage {
  import opened Wrappers
  import opened JsRuntime

  /** A form field: missing, a number, or the text an input produced. */
  datatype FormValue = FUndefined | FNumber(n: real) | FText(s: string)

  predicate Truthy(v: FormValue)
  {
    match v
    case FUndefined => false
    case FNumber(n) => n != 0.0
    case FText(s) => s != ""
  }

  /** `v <= 0` after JavaScript converts `v` to a number; NaN compares false. */
  predicate AtMostZero(v: FormValue)
  {
    match v
    case FUndefined => false
    case FNumber(n) => n <= 0.0
    case FText(s) => StringToNumber(s).Some? && StringToNumber(s).value <= 0.0
  }

  type FormData = map<string, FormValue>

  /** `formData[name]`, undefined for a key the form never set. */
  function Field(formData: FormData, name: string): (v: FormValue)
    ensures name !in formData ==> v == FUndefined
  {
    if name in formData then formData[name] else FUndefined
  }

  const PdfMimeType: string := "application/pdf"
  const FileTypeError: string := "Please upload only PDF files"
  const RequiredFieldsError: string := "Please fill in all required fields and upload a question PDF"
  const TotalMarksError: string := "Total marks must be greater than 0"
  const MissingSubjectError: string := "Subject ID is missing. Please check the URL or contact support."

  /** The file the browser's picker hands over. */
  datatype PickedFile = PickedFile(name: string, mimeType: string)

  /**
   * The form's first state: empty title and description, today's date, 100 marks, the
   * subject id from the URL (possibly undefined) and the user's id or "".
   */
  function InitialFormData(today: string, subjectID: Option<string>, userId: Option<string>): (f: FormData)
    ensures f.Keys == {"title", "description", "date", "totalMarks", "subjectId", "teacherId"}
    ensures f["title"] == FText("") && f["description"] == FText("") && f["date"] == FText(today)
    ensures f["totalMarks"] == FNumber(100.0)
    ensures f["subjectId"] == (if subjectID.Some? then FText(subjectID.value) else FUndefined)
    ensures f["teacherId"] == (if userId.Some? && userId.value != "" then FText(userId.value) else FText(""))
  {
    map[
      "title" := FText(""),
      "description" := FText(""),
      "date" := FText(today),
      "totalMarks" := FNumber(100.0),
      "subjectId" := (if subjectID.Some? then FText(subjectID.value) else FUndefined),
      "teacherId" := (if userId.Some? && userId.value != "" then FText(userId.value) else FText(""))]
  }

  // ---------------------------------------------------------------- validation

  datatype Verdict = Valid | Invalid(message: string)

  /**
   * `validateForm`: first the required-fields rule (a title, truthy marks, a file), then
   * the rule that the marks are above zero.
   */
  function Validate(formData: FormData, hasFile: bool): (v: Verdict)
    ensures v == Invalid(RequiredFieldsError) <==>
      !Truthy(Field(formData, "title")) || !Truthy(Field(formData, "totalMarks")) || !hasFile
    ensures v == Invalid(TotalMarksError) <==>
      Truthy(Field(formData, "title")) && Truthy(Field(formData, "totalMarks")) && hasFile
      && AtMostZero(Field(formData, "totalMarks"))
    ensures v.Valid? || v == Invalid(RequiredFieldsError) || v == Invalid(TotalMarksError)
  {
    if !Truthy(Field(formData, "title")) || !Truthy(Field(formData, "totalMarks")) || !hasFile then
      Invalid(RequiredFieldsError)
    else if AtMostZero(Field(formData, "totalMarks")) then Invalid(TotalMarksError)
    else Valid
  }

  /** A valid form has a title, a file, and marks that are positive whenever they read as a number. */
  lemma ValidFormHasPositiveMarks(formData: FormData, hasFile: bool)
    requires Validate(formData, hasFile).Valid?
    ensures hasFile && Truthy(Field(formData, "title"))
    ensures Field(formData, "totalMarks").FNumber? ==> Field(formData, "totalMarks").n > 0.0
    ensures Field(formData, "totalMarks").FText? && StringToNumber(Field(formData, "totalMarks").s).Some? ==>
      StringToNumber(Field(formData, "totalMarks").s).value > 0.0
  {
  }

  /** The text "0" passes the required-fields rule, being a non-empty string, and is caught by the second. */
  lemma ZeroMarksTextRejected(formData: FormData)
    requires Truthy(Field(formData, "title")) && Field(formData, "totalMarks") == FText(DecimalString(0))
    ensures Validate(formData, true) == Invalid(TotalMarksError)
  {
    StringToNumberDecimal(0);
  }

  /** Marks typed as a whole number are accepted when the number is positive. */
  lemma WholeMarksTextAccepted(formData: FormData, n: nat)
    requires Truthy(Field(formData, "title")) && Field(formData, "totalMarks") == FText(DecimalString(n))
    ensures Validate(formData, true).Valid? <==> n > 0
  {
    StringToNumberDecimal(n);
  }

  // ---------------------------------------------------------------- submit

  /** One `append` to the multipart body: a text field or the file part. */
  datatype Part = TextPart(name: string, value: FormValue) | FilePart(name: string, file: Option<PickedFile>)

  /** The seven appends of `handleSubmit`, in order. */
  function Payload(formData: FormData, questionFile: Option<PickedFile>): (parts: seq<Part>)
    ensures |parts| == 7
    ensures forall i :: 0 <= i < 6 ==> parts[i].TextPart? && parts[i].value == Field(formData, parts[i].name)
    ensures [parts[0].name, parts[1].name, parts[2].name, parts[3].name, parts[4].name, parts[5].name]
      == ["title", "description", "date", "totalMarks", "subjectId", "teacherId"]
    ensures parts[6] == FilePart("questionFile", questionFile)
  {
    [TextPart("title", Field(formData, "title")),
     TextPart("description", Field(formData, "description")),
     TextPart("date", Field(formData, "date")),
     TextPart("totalMarks", Field(formData, "totalMarks")),
     TextPart("subjectId", Field(formData, "subjectId")),
     TextPart("teacherId", Field(formData, "teacherId")),
     FilePart("questionFile", questionFile)]
  }

  /** What a submit leads to: a form error, or the payload dispatched to the create thunk. */
  datatype SubmitOutcome = Refused(message: string) | Dispatch(parts: seq<Part>)

  /** The subject-id guard: falsy, or the text "undefined" a missing route parameter can turn into. */
  predicate SubjectIdMissing(formData: FormData)
  {
    !Truthy(Field(formData, "subjectId")) || Field(formData, "subjectId") == FText("undefined")
  }

  function Submit(formData: FormData, questionFile: Option<PickedFile>): (o: SubmitOutcome)
    ensures Validate(formData, questionFile.Some?).Invalid? ==>
      o == Refused(Validate(formData, questionFile.Some?).message)
    ensures Validate(formData, questionFile.Some?).Valid? && SubjectIdMissing(formData) ==>
      o == Refused(MissingSubjectError)
    ensures o.Dispatch? <==> Validate(formData, questionFile.Some?).Valid? && !SubjectIdMissing(formData)
    ensures o.Dispatch? ==> o.parts == Payload(formData, questionFile)
  {
    var verdict := Validate(formData, questionFile.Some?);
    if verdict.Invalid? then Refused(verdict.message)
    else if SubjectIdMissing(formData) then Refused(MissingSubjectError)
    else Dispatch(Payload(formData, questionFile))
  }

  /** A dispatched payload always carries a file and a usable subject id. */
  lemma DispatchedPayloadComplete(formData: FormData, questionFile: Option<PickedFile>)
    requires Submit(formData, questionFile).Dispatch?
    ensures questionFile.Some?
    ensures var parts := Submit(formData, questionFile).parts;
      parts[4].value != FUndefined && parts[4].value != FText("") && parts[4].value != FText("undefined")
  {
  }

  /** The form page's state. */
  class CreateAssessmentForm {
    var formData: FormData
    var questionFile: Option<PickedFile>
    var fileError: string
    var formError: string

    constructor (today: string, subjectID: Option<string>, userId: Option<string>)
      ensures formData == InitialFormData(today, subjectID, userId)
      ensures questionFile.None? && fileError == "" && formError == ""
    {
      formData := InitialFormData(today, subjectID, userId);
      questionFile, fileError, formError := None, "", "";
    }

    /** The effect that copies the route's subject id and the user's id in once both are known. */
    method SyncIds(subjectID: Option<string>, userId: Option<string>)
      modifies this`formData
      ensures subjectID.Some? && subjectID.value != "" && userId.Some? && userId.value != "" ==>
        formData == old(formData)["subjectId" := FText(subjectID.value)]["teacherId" := FText(userId.value)]
      ensures !(subjectID.Some? && subjectID.value != "" && userId.Some? && userId.value != "") ==>
        formData == old(formData)
    {
      if subjectID.Some? && subjectID.value != "" && userId.Some? && userId.value != "" {
        formData := formData["subjectId" := FText(subjectID.value)]["teacherId" := FText(userId.value)];
      }
    }

    /** `handleInputChange`: the named field takes the input's text; every other field stays. */
    method HandleInputChange(name: string, value: string)
      modifies this`formData
      ensures formData.Keys == old(formData).Keys + {name}
      ensures formData[name] == FText(value)
      ensures forall k :: k in old(formData) && k != name ==> formData[k] == old(formData)[k]
    {
      formData := formData[name := FText(value)];
    }

    /** `handleFileChange`: nothing happens without a file; a non-PDF clears the selection. */
    method HandleFileChange(file: Option<PickedFile>)
      modifies this`questionFile, this`fileError
      ensures file.None? ==> questionFile == old(questionFile) && fileError == old(fileError)
      ensures file.Some? && file.value.mimeType != PdfMimeType ==> fileError == FileTypeError && questionFile.None?
      ensures file.Some? && file.value.mimeType == PdfMimeType ==> fileError == "" && questionFile == file
    {
      if file.Some? {
        if file.value.mimeType != PdfMimeType {
          fileError, questionFile := FileTypeError, None;
        } else {
          fileError, questionFile := "", file;
        }
      }
    }

    /** `handleSubmit`: clears the form error, then either sets it or returns the payload to dispatch. */
    method HandleSubmit() returns (dispatched: Option<seq<Part>>)
      modifies this`formError
      ensures Submit(formData, questionFile).Refused? ==>
        dispatched.None? && formError == Submit(formData, questionFile).message
      ensures Submit(formData, questionFile).Dispatch? ==>
        dispatched == Some(Submit(formData, questionFile).parts) && formError == ""
    {
      formError := "";
      var verdict := Validate(formData, questionFile.Some?);
      if verdict.Invalid? {
        formError := verdict.message;
        return None;
      }
      if SubjectIdMissing(formData) {
        formError := MissingSubjectError;
        return None;
      }
      dispatched := Some(Payload(formData, questionFile));
    }
  }
}
