/**
 * The assessment handlers over an in-memory store: the `assessment` collection, the GridFS
 * file collection of the "uploads" bucket, and the subject and student records a new
 * assessment takes its roster from. Database failures the handlers observe are parameters.
 */
module AssessmentController {
  import opened Wrappers
  import opened AssessmentSchema
  import opened Sequences
  import UploadTypes
  import GridfsConfig

  /** The HTTP outcome of a handler: 200/201 with a body, 400, 404 or 500. */
  datatype Reply<T> = Done(value: T) | BadRequest(message: string) | NotFound(message: string) | ServerError

  const NotFoundMessage: string := "Assessment not found"
  const StudentNotFoundMessage: string := "Student not found in this assessment"
  const NoFileMessage: string := "Question PDF file is required"
  const NoSubjectMessage: string := "Subject ID is required"
  const NoTeacherMessage: string := "Teacher ID is required"
  const NoAssessmentsMessage: string := "No assessments found for this subject"
  const DeletedMessage: string := "Assessment deleted successfully"

  /**
   * The 200 body of `getSubjectAssessments`: the subject's assessments (as their ids), or,
   * when there are none, an object carrying only a message.
   */
  datatype Listing = Assessments(ids: set<Id>) | EmptyMessage(message: string)

  /** The body fields `createAssessment` reads; None is an absent or empty field. */
  datatype CreateRequest = CreateRequest(title: Option<string>, description: Option<string>, date: Option<string>,
                                         totalMarks: Option<real>, subjectId: Option<Id>, teacherId: Option<Id>)

  /** The fields `updateAssessment` copies from the body; None is a field the body omits. */
  datatype Patch = Patch(title: Option<string>, description: Option<string>, date: Option<string>,
                         totalMarks: Option<real>, subjectId: Option<Id>, teacherId: Option<Id>,
                         questionPdfUrl: Option<Id>, solutionPdfUrl: Option<Id>, isCompleted: Option<bool>)

  /** A student document, and the subject documents' class references. */
  datatype StudentRecord = StudentRecord(id: Id, name: string, sclassName: Id)
  datatype Directory = Directory(subjectClass: map<Id, Option<Id>>, students: seq<StudentRecord>)

  /** A GridFS file with the metadata keys the handlers add to it. */
  datatype StoredFile = StoredFile(info: GridfsConfig.FileInfo, assessmentId: Option<Id>, kind: Option<string>)

  // ---------------------------------------------------------------- roster snapshot

  /** `Student.find({ sclassName })`, in collection order. */
  function ClassStudents(students: seq<StudentRecord>, cls: Id): (r: seq<StudentRecord>)
    ensures |r| <= |students|
    ensures forall s :: s in r ==> s in students && s.sclassName == cls
  {
    if students == [] then []
    else (if students[0].sclassName == cls then [students[0]] else []) + ClassStudents(students[1..], cls)
  }

  /** Every student of the class is found. */
  lemma {:induction false} ClassStudentsComplete(students: seq<StudentRecord>, cls: Id, s: StudentRecord)
    requires s in students && s.sclassName == cls
    ensures s in ClassStudents(students, cls)
  {
    if students[0] != s {
      ClassStudentsComplete(students[1..], cls, s);
    }
  }

  /** The roster a new assessment gets: one default entry per student of the subject's class. */
  function Roster(dir: Directory, subjectId: Id): (r: seq<ResultEntry>)
    ensures forall i :: 0 <= i < |r| ==> r[i].marks.None? && r[i].status == Some(Pending)
    ensures subjectId !in dir.subjectClass || dir.subjectClass[subjectId].None? ==> r == []
    ensures subjectId in dir.subjectClass && dir.subjectClass[subjectId].Some? ==>
      var cs := ClassStudents(dir.students, dir.subjectClass[subjectId].value);
      |r| == |cs| && forall i :: 0 <= i < |r| ==> r[i].studentId == cs[i].id && r[i].name == cs[i].name
  {
    if subjectId in dir.subjectClass && dir.subjectClass[subjectId].Some? then
      var cs := ClassStudents(dir.students, dir.subjectClass[subjectId].value);
      seq(|cs|, i requires 0 <= i < |cs| => NewEntry(cs[i].id, cs[i].name))
    else []
  }

  /** A student of the subject's class has a Pending entry with no mark, and every entry is such a student. */
  lemma RosterMembership(dir: Directory, subjectId: Id, cls: Id, s: StudentRecord)
    requires subjectId in dir.subjectClass && dir.subjectClass[subjectId] == Some(cls)
    ensures s in dir.students && s.sclassName == cls ==>
      ResultEntry(s.id, s.name, None, Some(Pending)) in Roster(dir, subjectId)
    ensures forall e :: e in Roster(dir, subjectId) ==>
      exists t :: t in dir.students && t.sclassName == cls && e == ResultEntry(t.id, t.name, None, Some(Pending))
  {
    var cs := ClassStudents(dir.students, cls);
    var r := Roster(dir, subjectId);
    if s in dir.students && s.sclassName == cls {
      ClassStudentsComplete(dir.students, cls, s);
      var i :| 0 <= i < |cs| && cs[i] == s;
      assert r[i] == ResultEntry(s.id, s.name, None, Some(Pending));
    }
    forall e | e in r
      ensures exists t :: t in dir.students && t.sclassName == cls && e == ResultEntry(t.id, t.name, None, Some(Pending))
    {
      var i :| 0 <= i < |r| && r[i] == e;
      assert cs[i] in cs;
    }
  }

  // ---------------------------------------------------------------- submitting a result

  /** The key `submitAssessmentResults` searches the roster by, `s => s.studentId`. */
  function EntryStudent(e: ResultEntry): Id
  {
    e.studentId
  }

  /** `students.findIndex(s => s.studentId.toString() === studentId.toString())`. */
  function FirstIndexOf(students: seq<ResultEntry>, studentId: Id): int
  {
    FirstIndex(students, EntryStudent, studentId)
  }

  function StudentIds(students: seq<ResultEntry>): (ids: seq<Id>)
    ensures |ids| == |students| && forall i :: 0 <= i < |ids| ==> ids[i] == students[i].studentId
  {
    seq(|students|, i requires 0 <= i < |students| => students[i].studentId)
  }

  /** The lookup depends only on the roster's student ids. */
  lemma FirstIndexOfIds(s: seq<ResultEntry>, t: seq<ResultEntry>, studentId: Id)
    requires StudentIds(s) == StudentIds(t)
    ensures FirstIndexOf(s, studentId) == FirstIndexOf(t, studentId)
  {
    forall j | 0 <= j < |s|
      ensures EntryStudent(s[j]) == EntryStudent(t[j])
    {
      assert StudentIds(s)[j] == StudentIds(t)[j];
    }
    FirstIndexSameKeys(s, EntryStudent, t, EntryStudent, studentId);
  }

  predicate AllCompleted(students: seq<ResultEntry>)
  {
    forall i :: 0 <= i < |students| ==> students[i].status == Some(Completed)
  }

  /**
   * The record after writing `marks` and `status` into the first entry for `studentId`,
   * exactly as given, and switching `isCompleted` on when the whole roster is Completed.
   * None when the roster has no entry for the student.
   */
  function RecordResult(a: Assessment, studentId: Id, marks: Option<real>, status: Option<Status>)
    : (r: Option<Assessment>)
    ensures r.None? <==> forall i :: 0 <= i < |a.students| ==> a.students[i].studentId != studentId
    ensures r.Some? ==>
      var k := FirstIndexOf(a.students, studentId);
      && |r.value.students| == |a.students|
      && r.value.students[k] == ResultEntry(studentId, a.students[k].name, marks, status)
      && (forall i :: 0 <= i < |a.students| && i != k ==> r.value.students[i] == a.students[i])
      && r.value.isCompleted == (a.isCompleted || AllCompleted(r.value.students))
      && r.value.(students := a.students, isCompleted := a.isCompleted) == a
  {
    var k := FirstIndexOf(a.students, studentId);
    if k == -1 then None
    else
      var students := a.students[k := a.students[k].(marks := marks, status := status)];
      Some(a.(students := students, isCompleted := a.isCompleted || AllCompleted(students)))
  }

  /** Submitting never adds or removes roster entries, never renames them, and never reopens an assessment. */
  lemma RecordResultKeepsRoster(a: Assessment, studentId: Id, marks: Option<real>, status: Option<Status>)
    requires RecordResult(a, studentId, marks, status).Some?
    ensures var r := RecordResult(a, studentId, marks, status).value;
      StudentIds(r.students) == StudentIds(a.students)
      && (forall i :: 0 <= i < |a.students| ==> r.students[i].name == a.students[i].name)
      && (a.isCompleted ==> r.isCompleted)
  {
  }

  /** Submitting the same result twice has the effect of submitting it once. */
  lemma RecordResultIdempotent(a: Assessment, studentId: Id, marks: Option<real>, status: Option<Status>)
    requires RecordResult(a, studentId, marks, status).Some?
    ensures var r := RecordResult(a, studentId, marks, status).value;
      RecordResult(r, studentId, marks, status) == Some(r)
  {
    var r := RecordResult(a, studentId, marks, status).value;
    RecordResultKeepsRoster(a, studentId, marks, status);
    FirstIndexOfIds(a.students, r.students, studentId);
    var k := FirstIndexOf(a.students, studentId);
    assert r.students[k := r.students[k].(marks := marks, status := status)] == r.students;
  }

  /** The last Pending or Submitted entry set to Completed completes the assessment. */
  lemma CompletingLastEntry(a: Assessment, studentId: Id, marks: Option<real>)
    requires RecordResult(a, studentId, marks, Some(Completed)).Some?
    requires forall i :: 0 <= i < |a.students| && i != FirstIndexOf(a.students, studentId) ==>
      a.students[i].status == Some(Completed)
    ensures RecordResult(a, studentId, marks, Some(Completed)).value.isCompleted
  {
    var r := RecordResult(a, studentId, marks, Some(Completed)).value;
    assert AllCompleted(r.students);
  }

  /**
   * What `submitAssessmentResults` does with a found record: the student lookup, the write,
   * and `save()`, whose validation rejects an unknown status name or a record that no longer
   * conforms to the schema. A body without `studentId` fails on `studentId.toString()` as
   * soon as there is a roster entry to compare it with; an empty roster is searched without
   * calling it, and answers that the student is not found.
   */
  function Submit(a: Assessment, studentId: Option<Id>, marks: Option<real>, status: Option<string>): (r: Reply<Assessment>)
    ensures studentId.None? ==> r == (if a.students == [] then NotFound(StudentNotFoundMessage) else ServerError)
    ensures studentId.Some? ==>
      (r.NotFound? <==> forall i :: 0 <= i < |a.students| ==> a.students[i].studentId != studentId.value)
    ensures r.NotFound? ==> r.message == StudentNotFoundMessage
    ensures r.Done? ==> studentId.Some? && (status.None? || ParseStatus(status.value).Some?)
    ensures r.Done? ==> Conforms(r.value) && (a.isCompleted ==> r.value.isCompleted)
    ensures r.Done? ==> r == Done(RecordResult(a, studentId.value, marks,
                                   if status.None? then None else ParseStatus(status.value)).value)
    ensures studentId.Some? ==> (r.ServerError? <==> (!r.NotFound? && ((status.Some? && ParseStatus(status.value).None?)
      || !Conforms(RecordResult(a, studentId.value, marks, if status.None? then None else ParseStatus(status.value)).value))))
    ensures r.Done? || r.NotFound? || r.ServerError?
  {
    if studentId.None? then
      if a.students == [] then NotFound(StudentNotFoundMessage) else ServerError
    else
      var parsed := if status.None? then None else ParseStatus(status.value);
      match RecordResult(a, studentId.value, marks, parsed)
      case None => NotFound(StudentNotFoundMessage)
      case Some(updated) =>
        if status.Some? && parsed.None? then ServerError
        else if Violations(updated) != [] then ServerError
        else Done(updated)
  }

  // ---------------------------------------------------------------- completing and updating

  /** `completeAssessment`'s edits: the completion flag, defaulting to true, and the solution file. */
  function ApplyComplete(a: Assessment, isCompleted: Option<bool>, solution: Option<Id>): (r: Assessment)
    ensures r.isCompleted <==> isCompleted.None? || isCompleted.value
    ensures solution.Some? ==> r.solutionPdfUrl == solution
    ensures solution.None? ==> r.solutionPdfUrl == a.solutionPdfUrl
    ensures r.students == a.students
    ensures r.(isCompleted := a.isCompleted, solutionPdfUrl := a.solutionPdfUrl) == a
  {
    a.(isCompleted := isCompleted.GetOr(true),
       solutionPdfUrl := if solution.Some? then solution else a.solutionPdfUrl)
  }

  /** Completing leaves the record's validity as it was: `save()` succeeds exactly when it would have before. */
  lemma ApplyCompleteKeepsValidity(a: Assessment, isCompleted: Option<bool>, solution: Option<Id>)
    ensures Violations(ApplyComplete(a, isCompleted, solution)) == Violations(a)
  {
    var r := ApplyComplete(a, isCompleted, solution);
    ViolationsIgnoreOptionalFields(a, a.description, r.solutionPdfUrl, r.isCompleted, a.students);
    assert r == a.(description := a.description, solutionPdfUrl := r.solutionPdfUrl,
                   isCompleted := r.isCompleted, students := a.students);
  }

  /** Completing twice with the same request is completing once. */
  lemma ApplyCompleteIdempotent(a: Assessment, isCompleted: Option<bool>, solution: Option<Id>)
    ensures ApplyComplete(ApplyComplete(a, isCompleted, solution), isCompleted, solution)
         == ApplyComplete(a, isCompleted, solution)
  {
  }

  function Override<T>(given: Option<T>, current: T): T
  {
    if given.Some? then given.value else current
  }

  function OverrideOpt<T>(given: Option<T>, current: Option<T>): Option<T>
  {
    if given.Some? then given else current
  }

  /** `$set` with the body's fields: each supplied field replaces the stored one; the roster is kept. */
  function ApplyPatch(a: Assessment, p: Patch): (r: Assessment)
    ensures p.title.Some? ==> r.title == p.title
    ensures p.title.None? ==> r.title == a.title
    ensures p.description.Some? ==> r.description == p.description
    ensures p.description.None? ==> r.description == a.description
    ensures p.date.Some? ==> r.date == p.date
    ensures p.date.None? ==> r.date == a.date
    ensures p.totalMarks.Some? ==> r.totalMarks == p.totalMarks
    ensures p.totalMarks.None? ==> r.totalMarks == a.totalMarks
    ensures p.subjectId.Some? ==> r.subjectId == p.subjectId
    ensures p.subjectId.None? ==> r.subjectId == a.subjectId
    ensures p.teacherId.Some? ==> r.teacherId == p.teacherId
    ensures p.teacherId.None? ==> r.teacherId == a.teacherId
    ensures p.questionPdfUrl.Some? ==> r.questionPdfUrl == p.questionPdfUrl
    ensures p.questionPdfUrl.None? ==> r.questionPdfUrl == a.questionPdfUrl
    ensures p.solutionPdfUrl.Some? ==> r.solutionPdfUrl == p.solutionPdfUrl
    ensures p.solutionPdfUrl.None? ==> r.solutionPdfUrl == a.solutionPdfUrl
    ensures p.isCompleted.Some? ==> r.isCompleted == p.isCompleted.value
    ensures p.isCompleted.None? ==> r.isCompleted == a.isCompleted
    ensures r.students == a.students
  {
    Assessment(OverrideOpt(p.title, a.title), OverrideOpt(p.description, a.description),
               OverrideOpt(p.date, a.date), OverrideOpt(p.totalMarks, a.totalMarks),
               OverrideOpt(p.subjectId, a.subjectId), OverrideOpt(p.teacherId, a.teacherId),
               OverrideOpt(p.questionPdfUrl, a.questionPdfUrl), OverrideOpt(p.solutionPdfUrl, a.solutionPdfUrl),
               Override(p.isCompleted, a.isCompleted), a.students)
  }

  const EmptyPatch: Patch := Patch(None, None, None, None, None, None, None, None, None)

  /** An empty body changes nothing, and applying a body twice is applying it once. */
  lemma ApplyPatchLaws(a: Assessment, p: Patch)
    ensures ApplyPatch(a, EmptyPatch) == a
    ensures ApplyPatch(ApplyPatch(a, p), p) == ApplyPatch(a, p)
  {
  }

  /** The body with an uploaded solution file's id written over any `solutionPdfUrl` it carries. */
  function EffectivePatch(p: Patch, file: Option<Id>): (q: Patch)
    ensures file.Some? ==> q.solutionPdfUrl == file
    ensures file.None? ==> q == p
    ensures q.(solutionPdfUrl := p.solutionPdfUrl) == p
  {
    if file.Some? then p.(solutionPdfUrl := file) else p
  }

  /** An updated record carries the uploaded file, whatever the body said. */
  lemma UploadedSolutionWins(a: Assessment, p: Patch, fileId: Id)
    ensures ApplyPatch(a, EffectivePatch(p, Some(fileId))).solutionPdfUrl == Some(fileId)
    ensures ApplyPatch(a, EffectivePatch(p, Some(fileId))).students == a.students
  {
  }

  // ---------------------------------------------------------------- deleting

  /** The blob ids `deleteAssessment` tries to remove, question file first. */
  function BlobsOf(a: Assessment): (ids: seq<Id>)
    ensures |ids| <= 2
    ensures forall id :: id in ids <==> a.questionPdfUrl == Some(id) || a.solutionPdfUrl == Some(id)
    ensures a.questionPdfUrl.Some? ==> ids[0] == a.questionPdfUrl.value
  {
    (if a.questionPdfUrl.Some? then [a.questionPdfUrl.value] else [])
    + (if a.solutionPdfUrl.Some? then [a.solutionPdfUrl.value] else [])
  }

  /** `gfs.files.updateOne(...)`: tags the file if it exists, a no-op otherwise. */
  function Tagged(files: map<Id, StoredFile>, fileId: Id, owner: Id, kind: Option<string>): (r: map<Id, StoredFile>)
    ensures r.Keys == files.Keys
    ensures fileId in files ==> r[fileId] == files[fileId].(assessmentId := Some(owner), kind := OverrideOpt(kind, files[fileId].kind))
    ensures forall f :: f in files && f != fileId ==> r[f] == files[f]
  {
    if fileId in files then files[fileId := files[fileId].(assessmentId := Some(owner), kind := OverrideOpt(kind, files[fileId].kind))]
    else files
  }

  /** `gfs.remove(...)`: the file is gone when removal succeeded, and kept when it failed. */
  function Removed(files: map<Id, StoredFile>, fileId: Id, ok: bool): (r: map<Id, StoredFile>)
    ensures ok ==> r.Keys == files.Keys - {fileId}
    ensures !ok ==> r == files
    ensures forall f :: f in r ==> f in files && r[f] == files[f]
  {
    if ok then files - {fileId} else files
  }

  // ---------------------------------------------------------------- the store

  class Database {
    var assessments: map<Id, Assessment>
    var files: map<Id, StoredFile>
    /** Ids are never reused: every id in use is below this counter. */
    var nextId: nat

    ghost predicate Valid()
      reads this
    {
      (forall k :: k in assessments ==> k < nextId) && (forall k :: k in files ==> k < nextId)
    }

    constructor ()
      ensures Valid() && assessments == map[] && files == map[]
    {
      assessments, files, nextId := map[], map[], 0;
    }

    /** A GridFS write: the file gets a fresh id and no assessment tag yet. */
    method StoreFile(info: GridfsConfig.FileInfo) returns (id: Id)
      requires Valid()
      modifies this
      ensures Valid() && assessments == old(assessments)
      ensures id == old(nextId) && id !in old(files)
      ensures files == old(files)[id := StoredFile(info, None, None)]
    {
      id := nextId;
      files := files[id := StoredFile(info, None, None)];
      nextId := nextId + 1;
    }

    /**
     * `createAssessment`. `file` is the id multer stored the question file under; `metadataOk`
     * says whether tagging that file succeeds, and `rosterSaved` whether the subject and
     * student lookups and the second `save()` succeed. The roster snapshot is taken once, here.
     */
    method Create(req: CreateRequest, file: Option<Id>, dir: Directory, metadataOk: bool, rosterSaved: bool)
      returns (r: Reply<Assessment>)
      requires Valid()
      modifies this
      ensures Valid()
      ensures file.None? ==> r == BadRequest(NoFileMessage)
      ensures file.Some? && req.subjectId.None? ==> r == BadRequest(NoSubjectMessage)
      ensures file.Some? && req.subjectId.Some? && req.teacherId.None? ==> r == BadRequest(NoTeacherMessage)
      ensures r.BadRequest? ==> assessments == old(assessments) && files == old(files)
      ensures file.Some? && req.subjectId.Some? && req.teacherId.Some? ==>
        var draft := NewAssessment(req.title, req.description, req.date, req.totalMarks,
                                   req.subjectId, req.teacherId, file);
        && (Violations(draft) != [] ==> r == ServerError && assessments == old(assessments) && files == old(files))
        && (Violations(draft) == [] && !metadataOk ==>
              r == ServerError && assessments == old(assessments)[old(nextId) := draft] && files == old(files))
        && (Violations(draft) == [] && metadataOk && !rosterSaved ==>
              r == ServerError && assessments == old(assessments)[old(nextId) := draft]
              && files == Tagged(old(files), file.value, old(nextId), None))
        && (Violations(draft) == [] && metadataOk && rosterSaved ==>
              r == Done(draft.(students := Roster(dir, req.subjectId.value)))
              && assessments == old(assessments)[old(nextId) := r.value]
              && files == Tagged(old(files), file.value, old(nextId), None))
    {
      if file.None? {
        return BadRequest(NoFileMessage);
      }
      if req.subjectId.None? {
        return BadRequest(NoSubjectMessage);
      }
      if req.teacherId.None? {
        return BadRequest(NoTeacherMessage);
      }
      var draft := NewAssessment(req.title, req.description, req.date, req.totalMarks,
                                 req.subjectId, req.teacherId, file);
      if Violations(draft) != [] {
        return ServerError;
      }
      var id := nextId;
      assessments := assessments[id := draft];
      nextId := nextId + 1;
      if !metadataOk {
        return ServerError;
      }
      files := Tagged(files, file.value, id, None);
      if !rosterSaved {
        return ServerError;
      }
      var saved := draft.(students := Roster(dir, req.subjectId.value));
      assessments := assessments[id := saved];
      r := Done(saved);
    }

    /**
     * The create route: multer stores the question file first, then the handler runs. A
     * request the handler rejects leaves the stored file behind, untagged and referenced by
     * no new record.
     */
    method CreateRoute(random: Option<UploadTypes.RandomBytes>, part: Option<UploadTypes.IncomingFile>,
                       req: CreateRequest, dir: Directory, metadataOk: bool, rosterSaved: bool)
      returns (r: Result<Reply<Assessment>, UploadTypes.UploadError>)
      requires Valid()
      modifies this
      ensures Valid()
      ensures part.Some? && GridfsConfig.Upload(random, part.value).Failure? ==>
        r == Failure(GridfsConfig.Upload(random, part.value).error)
      ensures part.None? ==> r == Success(BadRequest(NoFileMessage))
      ensures part.Some? && GridfsConfig.Upload(random, part.value).Success? && req.subjectId.None? ==>
        && r == Success(BadRequest(NoSubjectMessage))
        && assessments == old(assessments)
        && files == old(files)[old(nextId) := StoredFile(GridfsConfig.Upload(random, part.value).value, None, None)]
    {
      var stored: Option<Id> := None;
      if part.Some? {
        var up := GridfsConfig.Upload(random, part.value);
        if up.Failure? {
          return Failure(up.error);
        }
        var id := StoreFile(up.value);
        stored := Some(id);
      }
      var reply := Create(req, stored, dir, metadataOk, rosterSaved);
      r := Success(reply);
    }

    /** `getAssessment` (without the populated references). */
    function Get(id: Id): (r: Reply<Assessment>)
      reads this
      ensures r.Done? <==> id in assessments
      ensures r.Done? ==> r.value == assessments[id]
      ensures r.NotFound? ==> r.message == NotFoundMessage
    {
      if id in assessments then Done(assessments[id]) else NotFound(NotFoundMessage)
    }

    /**
     * `getSubjectAssessments`: the ids of the subject's assessments, or the message object,
     * both answered with status 200.
     */
    function SubjectAssessments(subjectId: Id): (r: Reply<Listing>)
      reads this
      ensures r.Done?
      ensures r.value.EmptyMessage? <==> forall k :: k in assessments ==> assessments[k].subjectId != Some(subjectId)
      ensures r.value.EmptyMessage? ==> r.value.message == NoAssessmentsMessage
      ensures r.value.Assessments? ==> (r.value.ids != {}
        && forall k :: k in r.value.ids <==> k in assessments && assessments[k].subjectId == Some(subjectId))
    {
      var ids := set k | k in assessments && assessments[k].subjectId == Some(subjectId);
      assert forall k :: k in assessments && assessments[k].subjectId == Some(subjectId) ==> k in ids;
      if ids == {} then Done(EmptyMessage(NoAssessmentsMessage)) else Done(Assessments(ids))
    }

    /**
     * `updateAssessment`. An uploaded solution file (`file`) is tagged first, even when no
     * record has the id; the merge runs no schema validation.
     */
    method Update(id: Id, body: Patch, file: Option<Id>, metadataOk: bool) returns (r: Reply<Assessment>)
      requires Valid()
      modifies this
      ensures Valid() && nextId == old(nextId)
      ensures file.Some? && !metadataOk ==> r == ServerError && assessments == old(assessments) && files == old(files)
      ensures file.None? || metadataOk ==>
        && files == (if file.Some? then Tagged(old(files), file.value, id, None) else old(files))
        && (id !in old(assessments) ==> r == NotFound(NotFoundMessage) && assessments == old(assessments))
        && (id in old(assessments) ==>
              r == Done(ApplyPatch(old(assessments)[id], EffectivePatch(body, file)))
              && assessments == old(assessments)[id := r.value])
    {
      if file.Some? {
        if !metadataOk {
          return ServerError;
        }
        files := Tagged(files, file.value, id, None);
      }
      if id !in assessments {
        return NotFound(NotFoundMessage);
      }
      var updated := ApplyPatch(assessments[id], EffectivePatch(body, file));
      assessments := assessments[id := updated];
      r := Done(updated);
    }

    /**
     * `deleteAssessment`: tries the question file, then the solution file, ignoring either
     * failure, and removes the record last; `recordRemoved` says whether that last step
     * succeeds. A failure there answers 500 with the files already gone.
     */
    method Delete(id: Id, questionRemoved: bool, solutionRemoved: bool, recordRemoved: bool)
      returns (r: Reply<string>)
      requires Valid()
      modifies this
      ensures Valid() && nextId == old(nextId)
      ensures id !in old(assessments) ==> r == NotFound(NotFoundMessage) && unchanged(this)
      ensures id in old(assessments) ==>
        var a := old(assessments)[id];
        && (recordRemoved ==> r == Done(DeletedMessage) && assessments == old(assessments) - {id})
        && (!recordRemoved ==> r == ServerError && assessments == old(assessments))
        && var afterQuestion := if a.questionPdfUrl.Some? then Removed(old(files), a.questionPdfUrl.value, questionRemoved) else old(files);
           files == if a.solutionPdfUrl.Some? then Removed(afterQuestion, a.solutionPdfUrl.value, solutionRemoved) else afterQuestion
      ensures forall f :: f in old(files) && f !in files ==> id in old(assessments) && f in BlobsOf(old(assessments)[id])
      ensures forall f :: f in files ==> f in old(files) && files[f] == old(files)[f]
      ensures recordRemoved ==> Get(id).NotFound?
    {
      if id !in assessments {
        return NotFound(NotFoundMessage);
      }
      var a := assessments[id];
      if a.questionPdfUrl.Some? {
        files := Removed(files, a.questionPdfUrl.value, questionRemoved);
      }
      if a.solutionPdfUrl.Some? {
        files := Removed(files, a.solutionPdfUrl.value, solutionRemoved);
      }
      if !recordRemoved {
        return ServerError;
      }
      assessments := assessments - {id};
      r := Done(DeletedMessage);
    }

    /**
     * `submitAssessmentResults`: `marks` and `status` as the body gives them, with no range
     * check; `studentId` is None when the body has none.
     */
    method SubmitResult(id: Id, studentId: Option<Id>, marks: Option<real>, status: Option<string>)
      returns (r: Reply<Assessment>)
      requires Valid()
      modifies this`assessments
      ensures Valid()
      ensures id !in old(assessments) ==> r == NotFound(NotFoundMessage) && assessments == old(assessments)
      ensures id in old(assessments) ==> r == Submit(old(assessments)[id], studentId, marks, status)
      ensures r.Done? ==> assessments == old(assessments)[id := r.value]
      ensures !r.Done? ==> assessments == old(assessments)
    {
      if id !in assessments {
        return NotFound(NotFoundMessage);
      }
      r := Submit(assessments[id], studentId, marks, status);
      if r.Done? {
        assessments := assessments[id := r.value];
      }
    }

    /**
     * `completeAssessment`. `isCompleted` is the body's field if it has one; `solution` the
     * solution file id the body (or the status route's upload) supplies; `metadataOk` whether
     * tagging that file succeeds, a failure that is only logged.
     */
    method Complete(id: Id, isCompleted: Option<bool>, solution: Option<Id>, metadataOk: bool)
      returns (r: Reply<Assessment>)
      requires Valid()
      modifies this
      ensures Valid() && nextId == old(nextId)
      ensures id !in old(assessments) ==> r == NotFound(NotFoundMessage) && unchanged(this)
      ensures id in old(assessments) ==>
        var updated := ApplyComplete(old(assessments)[id], isCompleted, solution);
        && files == (if solution.Some? && metadataOk then Tagged(old(files), solution.value, id, Some("solution")) else old(files))
        && (Violations(updated) == [] ==> r == Done(updated) && assessments == old(assessments)[id := updated])
        && (Violations(updated) != [] ==> r == ServerError && assessments == old(assessments))
    {
      if id !in assessments {
        return NotFound(NotFoundMessage);
      }
      var updated := ApplyComplete(assessments[id], isCompleted, solution);
      if solution.Some? && metadataOk {
        files := Tagged(files, solution.value, id, Some("solution"));
      }
      if Violations(updated) != [] {
        return ServerError;
      }
      assessments := assessments[id := updated];
      r := Done(updated);
    }

    /**
     * The status route: multer, a step that copies an uploaded file's id into the body as
     * `solutionPdfUrl`, then `completeAssessment`. A JSON request (`multipart` false) passes
     * multer untouched and is `Complete` with the body's fields. A multipart request gets a
     * body object with no prototype, so once the record is found `req.body.hasOwnProperty`
     * throws: the answer is 500, the record is unchanged, and a file multer stored stays
     * behind untagged.
     */
    method StatusRoute(id: Id, multipart: bool, random: Option<UploadTypes.RandomBytes>,
                       part: Option<UploadTypes.IncomingFile>, isCompleted: Option<bool>,
                       solution: Option<Id>, metadataOk: bool)
      returns (r: Result<Reply<Assessment>, UploadTypes.UploadError>)
      requires Valid()
      modifies this
      ensures Valid()
      ensures multipart && part.Some? && GridfsConfig.Upload(random, part.value).Failure? ==>
        r == Failure(GridfsConfig.Upload(random, part.value).error) && unchanged(this)
      ensures multipart && (part.None? || GridfsConfig.Upload(random, part.value).Success?) ==>
        && r == Success(if id in old(assessments) then ServerError else NotFound(NotFoundMessage))
        && assessments == old(assessments)
        && files == (if part.Some? then old(files)[old(nextId) := StoredFile(GridfsConfig.Upload(random, part.value).value, None, None)]
                     else old(files))
      ensures !multipart ==> r.Success? && nextId == old(nextId)
      ensures !multipart && id !in old(assessments) ==>
        r.value == NotFound(NotFoundMessage) && unchanged(this)
      ensures !multipart && id in old(assessments) ==>
        var updated := ApplyComplete(old(assessments)[id], isCompleted, solution);
        && files == (if solution.Some? && metadataOk then Tagged(old(files), solution.value, id, Some("solution")) else old(files))
        && (Violations(updated) == [] ==> r.value == Done(updated) && assessments == old(assessments)[id := updated])
        && (Violations(updated) != [] ==> r.value == ServerError && assessments == old(assessments))
    {
      if !multipart {
        var reply := Complete(id, isCompleted, solution, metadataOk);
        return Success(reply);
      }
      if part.Some? {
        var up := GridfsConfig.Upload(random, part.value);
        if up.Failure? {
          return Failure(up.error);
        }
        var stored := StoreFile(up.value);
      }
      if id !in assessments {
        return Success(NotFound(NotFoundMessage));
      }
      r := Success(ServerError);
    }
  }
}
