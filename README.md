# SMS-Attendance assessments, modelled in Dafny

This project models the assessment part of the SMS-Attendance school management system.

**Backend.**
- A teacher creates an assessment with a question PDF. The new record takes a roster snapshot of the students in the subject's class.
- Students' marks and statuses are written into that roster, and the assessment is marked completed.
- Uploaded files go to a GridFS bucket. Deleting an assessment also removes its files where it can.

**Frontend.**
- Two Redux slices keep the lists the pages show.
- React pages compute the bulk attendance sheet, per-subject completion percentages, the ongoing/completed tabs, score colours, the create-form validation and the roll-number ordering.

The model has one Dafny module per source file:
- `assessment_controller.dfy`: the Express handlers, as a `Database` class over an in-memory store. Its fields are the `assessment` collection, the GridFS file collection and an id counter. Pure functions state each handler's effect on one record.
- `assessment_schema.dfy`: the Mongoose schema. It covers required fields, defaults, the status enum and the `totalMarks` minimum.
- `gridfs_config.dfy` and `file_upload_middleware.dfy`: the two multer configurations. Both share `upload_types.dfy`.
- `assessment_slice.dfy` and `teacher_slice.dfy`: the reducers, as methods on a state class.
- `bulk_attendance.dfy`, `student_subjects.dfy`, `student_assessment_page.dfy`, `student_results_table.dfy`, `teacher_assessment_page.dfy`, `teacher_create_assessment_page.dfy` and `teacher_class_details.dfy`: each page's state as a class where the page keeps state, and its helpers as functions.
- `js_runtime.dfy` and `node_runtime.dfy`: the library behaviour the core relies on. This is `parseInt`, `Number(...)` on decimal text, `toLowerCase`, `includes`, `localeCompare` and `Math.round` for a percentage, plus `Buffer.toString('hex')` and `path.extname`.
- `client_types.dfy`: the JSON shapes the pages read. `wrappers.dfy` holds `Option`/`Result` and `sequences.dfy` holds a subsequence relation and the first-match search behind every `findIndex`.

Inputs outside the model are parameters:
- database failures after a write: tagging a file's metadata, the roster lookups and second save of a new assessment, removing a blob, removing the deleted record;
- whether a status request is multipart;
- `crypto.randomBytes`, as sixteen bytes or `None` when it fails;
- `new Date()`;
- `process.env.REACT_APP_BASE_URL`;
- the current user's id.

Object ids are natural numbers on the backend and strings on the client. Numbers are exact reals.

Some behaviours of the code worth knowing:
- Marks are written as the body gives them, with no range check against `totalMarks` (`backend/controllers/assessment-controller.js:204-205`).
- The question file is stored by multer before the handler checks `subjectId` and `teacherId` (`backend/routes/assessment-route.js:15`). A rejected create therefore leaves an untagged file behind (`AssessmentController.Database.CreateRoute`).
- `updateAssessment` runs no schema validation. It may also replace `questionPdfUrl`, because the body's field is copied like any other (`backend/controllers/assessment-controller.js:110-119`).
- A multipart request to the status route gets from multer a body object with no prototype. `req.body.hasOwnProperty(...)` then throws once the record is found (`backend/controllers/assessment-controller.js:235`). The reply is 500, the record is unchanged and an uploaded solution file stays untagged (`AssessmentController.Database.StatusRoute`). Only a JSON request completes an assessment.
- A results body without `studentId` throws at `studentId.toString()` as soon as the roster has an entry (`backend/controllers/assessment-controller.js:195-197`). The reply is 500; with an empty roster it is "Student not found in this assessment".
- For a subject with no assessments, `getSubjectAssessments` answers 200 with a `{ message }` object (`backend/controllers/assessment-controller.js:79`). The student page stores it as its list and calls `filter` on it, so the page fails to render (`StudentAssessmentPage.EmptySubjectFailsToRender`).

## Model

| member | source | states |
|---|---|---|
| UploadTypes.StoredFilename | backend/middleware/gridfs-config.js:14-18 | the stored name is 32 lower-case hex digits that decode back to the 16 random bytes, followed by exactly `path.extname` of the original name |
| UploadTypes.StoredFilenameDeterminesRandom | backend/middleware/file-upload-middleware.js:19-25 | two uploads get the same stored name only when their random bytes are equal |
| UploadTypes.RunUpload | backend/middleware/gridfs-config.js:34-46 | an upload succeeds exactly when the filter accepts, the builder succeeds and the size is within the limit; otherwise its error is the filter's message, the builder's failure, or the size limit, in that order |
| NodeRuntime.HexRoundTrip | backend/middleware/gridfs-config.js:14-18 | decoding the hex text of a buffer gives the buffer back |
| NodeRuntime.HexEncodeInjective | backend/middleware/gridfs-config.js:14-18 | distinct buffers have distinct hex texts |
| NodeRuntime.ExtName | backend/middleware/gridfs-config.js:18 | the extension is empty or starts with its only '.', contains no '/', and is a suffix of the path without its trailing slashes |
| NodeRuntime.ExtNameOfSimpleName | backend/middleware/gridfs-config.js:18 | a name "stem.ext" with a non-empty stem has extension ".ext" |
| NodeRuntime.ExtNameWithoutDot | backend/middleware/gridfs-config.js:18 | a name with no '.' has no extension |
| GridfsConfig.FileFilter | backend/middleware/gridfs-config.js:39-45 | a file is accepted exactly when its MIME type is `application/pdf`; otherwise it is rejected with "Only PDF files are allowed" |
| GridfsConfig.BuildFileInfo | backend/middleware/gridfs-config.js:10-31 | a failed `randomBytes` rejects; otherwise the file goes to bucket "uploads" under the hex-plus-extension name, with `originalName` and `contentType` copied from the upload |
| GridfsConfig.Upload | backend/middleware/gridfs-config.js:34-46 | an upload succeeds exactly when it is a PDF, the random bytes arrived and it fits the limit, and then stores what the builder described; a PDF without random bytes or over the limit fails with that reason |
| GridfsConfig.UploadAccepts | backend/middleware/gridfs-config.js:34-46 | a file is stored exactly when it is a PDF, the random bytes arrived and it is at most 20 × 1024 × 1024 bytes; a non-PDF is rejected with the filter's message |
| FileUploadMiddleware.FileFilter | backend/middleware/file-upload-middleware.js:64-79 | a file is accepted exactly when its MIME type is one of the six listed types; otherwise it is rejected with the filter's message |
| FileUploadMiddleware.BuildFileInfo | backend/middleware/file-upload-middleware.js:19-35 | the same name, bucket and metadata as above, plus `uploadDate`; `assessmentId` is present exactly when the body carries a non-empty one, and then it equals it |
| FileUploadMiddleware.Upload | backend/middleware/file-upload-middleware.js:57-79 | an upload succeeds exactly when its type is allowed, the random bytes arrived and it fits the limit, and then stores what the builder described; an allowed file without random bytes or over the limit fails with that reason |
| FileUploadMiddleware.UploadAccepts | backend/middleware/file-upload-middleware.js:57-79 | a file is stored exactly when its type is allowed, the random bytes arrived and it fits 20 MiB; a disallowed type gets the filter's error |
| FileUploadMiddleware.FiltersNested | backend/middleware/file-upload-middleware.js:64-79 | everything the PDF-only filter accepts this one accepts, and PNG separates them |
| FileUploadMiddleware.SameNamingAsGridfsConfig | backend/middleware/file-upload-middleware.js:19-25 | both configurations give a file the same stored name, bucket and size limit |
| AssessmentSchema.ParseStatus | backend/models/assessmentSchema.js:54-58 | a status name is accepted exactly when it is Pending, Submitted or Completed |
| AssessmentSchema.ParseStatusName | backend/models/assessmentSchema.js:54-58 | parsing the stored name of a status gives that status back |
| AssessmentSchema.StatusNameOfParse | backend/models/assessmentSchema.js:54-58 | an accepted name is the stored name of the status it parses to |
| AssessmentSchema.NewEntry | backend/models/assessmentSchema.js:41-60 | a new roster entry keeps its student and name, with marks null and status Pending |
| AssessmentSchema.NewAssessment | backend/models/assessmentSchema.js:4-40 | a new document keeps the given fields, with no solution file, `isCompleted` false and an empty roster |
| AssessmentSchema.Check | backend/models/assessmentSchema.js:4-33 | one validator reports its violation exactly when its check fails |
| AssessmentSchema.Violations | backend/models/assessmentSchema.js:4-33 | validation reports nothing exactly when the document conforms, and at most one violation per required field |
| AssessmentSchema.FieldViolations | backend/models/assessmentSchema.js:15-19 | each field's validators report at most one violation, about that field |
| AssessmentSchema.InViolations | backend/models/assessmentSchema.js:4-33 | a violation is reported exactly when its own field's validators raise it |
| AssessmentSchema.ViolationsNameFields | backend/models/assessmentSchema.js:4-33 | title, date, totalMarks, subjectId, teacherId and questionPdfUrl are each reported missing exactly when unset (text fields also when empty), and totalMarks below 1 exactly when present and below 1 |
| AssessmentSchema.ViolationsIgnoreOptionalFields | backend/models/assessmentSchema.js:8-10 | description, solutionPdfUrl, isCompleted and the roster never affect validation |
| AssessmentSchema.NewAssessmentConforms | backend/models/assessmentSchema.js:4-40 | a new document is valid exactly when every required field is given properly and the marks are at least 1 |
| AssessmentController.ClassStudents | backend/controllers/assessment-controller.js:42-49 | the class query returns only students of that class |
| AssessmentController.ClassStudentsComplete | backend/controllers/assessment-controller.js:42-49 | every student of the class is returned |
| AssessmentController.Roster | backend/controllers/assessment-controller.js:42-56 | the roster has one entry per class student, in order, each with marks null and status Pending; it is empty when the subject or its class is absent |
| AssessmentController.RosterMembership | backend/controllers/assessment-controller.js:42-56 | a student of the subject's class has a default entry, and every entry is such a student's |
| Sequences.FirstIndex | backend/controllers/assessment-controller.js:195-197 | the index found is that of the first element with the key, or -1 when no element has it; the same search serves `frontend/src/redux/assessmentRelated/assessmentSlice.js:47` and `frontend/src/pages/student/StudentAssessmentPage.js:112-114` |
| Sequences.FirstIndexSameKeys | backend/controllers/assessment-controller.js:195-197 | the search depends only on the keys, position by position |
| AssessmentController.FirstIndexOfIds | backend/controllers/assessment-controller.js:195-197 | the lookup depends only on the roster's student ids |
| AssessmentController.RecordResult | backend/controllers/assessment-controller.js:195-214 | no change without an entry for the student; otherwise only that entry's marks and status change, to the values given, the other fields stay, and `isCompleted` becomes true if the whole roster is Completed and is otherwise kept |
| AssessmentController.RecordResultKeepsRoster | backend/controllers/assessment-controller.js:204-214 | submitting keeps the roster's ids and names and never reopens an assessment |
| AssessmentController.RecordResultIdempotent | backend/controllers/assessment-controller.js:204-214 | submitting the same result twice equals submitting it once |
| AssessmentController.CompletingLastEntry | backend/controllers/assessment-controller.js:208-214 | completing the only entry that is not yet Completed completes the assessment |
| AssessmentController.Submit | backend/controllers/assessment-controller.js:195-216 | without a `studentId` the reply is a server error, or "Student not found" for an empty roster; with one, not found exactly when no entry has it, a server error exactly when the status name is not in the enum or the record no longer conforms, otherwise the saved record, which conforms and stays completed once completed |
| AssessmentController.ApplyComplete | backend/controllers/assessment-controller.js:235-239 | `isCompleted` becomes the given value, or true when none is given; the solution file changes only when one is given; nothing else changes |
| AssessmentController.ApplyCompleteKeepsValidity | backend/controllers/assessment-controller.js:235-258 | completing never changes whether the record passes validation |
| AssessmentController.ApplyCompleteIdempotent | backend/controllers/assessment-controller.js:235-239 | completing twice with the same request equals completing once |
| AssessmentController.ApplyPatch | backend/controllers/assessment-controller.js:110-131 | each supplied field replaces the stored one, each omitted field stays, and the roster is kept |
| AssessmentController.ApplyPatchLaws | backend/controllers/assessment-controller.js:110-131 | an empty body changes nothing, and applying a body twice equals applying it once |
| AssessmentController.EffectivePatch | backend/controllers/assessment-controller.js:110-119 | an uploaded file's id replaces the body's `solutionPdfUrl`; no other field changes |
| AssessmentController.UploadedSolutionWins | backend/controllers/assessment-controller.js:110-131 | an updated record carries the uploaded solution file whatever the body said, and keeps its roster |
| AssessmentController.BlobsOf | backend/controllers/assessment-controller.js:150-171 | the delete tries at most two blobs, exactly the record's question and solution files, the question file first |
| AssessmentController.Tagged | backend/controllers/assessment-controller.js:34-38 | tagging sets the file's owner, and its kind when one is given, if the file exists; nothing else changes |
| AssessmentController.Removed | backend/controllers/assessment-controller.js:150-171 | a successful removal drops exactly that file; a failed one changes nothing |
| AssessmentController.Database.StoreFile | backend/routes/assessment-route.js:15 | a stored upload gets a fresh id and no owner, and nothing else changes |
| AssessmentController.Database.Create | backend/controllers/assessment-controller.js:6-66 | the file, subjectId and teacherId checks reject in that order and change nothing; an invalid document gives a server error and stores nothing; a failed metadata tag leaves the record stored without its roster and the file untagged; a failed roster step leaves it stored without its roster but tagged; otherwise the record, holding the snapshot roster, is stored under a fresh id and the file is tagged with it |
| AssessmentController.Database.CreateRoute | backend/routes/assessment-route.js:15 | a rejected upload never reaches the handler; with no file part the handler answers 400; a stored file survives a request the handler rejects, untagged |
| AssessmentController.Database.Get | backend/controllers/assessment-controller.js:87-102 | found exactly when the id is stored, and then the stored record is returned; "Assessment not found" otherwise |
| AssessmentController.Database.SubjectAssessments | backend/controllers/assessment-controller.js:69-84 | always a 200 reply: the ids answered are exactly those of the subject's assessments, and the reply is the "No assessments found for this subject" message object exactly when there are none |
| AssessmentController.Database.Update | backend/controllers/assessment-controller.js:105-135 | an uploaded file is tagged first, even for a missing record; a failed tag gives a server error and changes nothing; an unknown id is not found; otherwise the record becomes the merged patch |
| AssessmentController.Database.Delete | backend/controllers/assessment-controller.js:138-180 | not found for an unknown id; otherwise the question blob and then the solution blob are removed where removal succeeds, and only those files go; a removed record answers "Assessment deleted successfully" and a later lookup finds nothing; a failed record removal answers 500 with the record kept and its files already gone |
| AssessmentController.Database.SubmitResult | backend/controllers/assessment-controller.js:183-221 | not found for an unknown assessment; otherwise the reply is that of `Submit`, including a body without `studentId`, and the store changes only when it is saved |
| AssessmentController.Database.Complete | backend/controllers/assessment-controller.js:224-267 | not found for an unknown id; otherwise the completion is applied; a metadata tag failure does not abort it; the record is saved exactly when it still validates |
| AssessmentController.Database.constructor | backend/models/assessmentSchema.js:63 | the store starts with no assessments and no files |
| AssessmentController.Database.StatusRoute | backend/routes/assessment-route.js:39-50 | a JSON request behaves as `Complete`; a multipart request whose upload is rejected never reaches the handler; any other multipart request answers not found for an unknown id and otherwise 500, leaving the record unchanged and an uploaded file stored untagged |
| AssessmentSlice.ReplaceAtFoundIndex | frontend/src/redux/assessmentRelated/assessmentSlice.js:45-54 | assigning at the found index replaces the first item with the id, and with no match the list is unchanged |
| AssessmentSlice.ReplaceFirstById | frontend/src/redux/assessmentRelated/assessmentSlice.js:45-54 | the list keeps its length and every position its id; every item is the list's own or the new one |
| AssessmentSlice.ReplaceFirstByIdFrame | frontend/src/redux/assessmentRelated/assessmentSlice.js:45-54 | every other position keeps its item |
| AssessmentSlice.RemoveById | frontend/src/redux/assessmentRelated/assessmentSlice.js:55-60 | the survivors are exactly the items without the id |
| AssessmentSlice.RemoveByIdKeepsOrder | frontend/src/redux/assessmentRelated/assessmentSlice.js:55-60 | the survivors keep their order |
| AssessmentSlice.RemoveByIdIdempotent | frontend/src/redux/assessmentRelated/assessmentSlice.js:55-60 | deleting twice equals deleting once |
| AssessmentSlice.RemoveAbsentId | frontend/src/redux/assessmentRelated/assessmentSlice.js:55-60 | deleting an id no item carries changes nothing |
| AssessmentSlice.AssessmentState.constructor | frontend/src/redux/assessmentRelated/assessmentSlice.js:3-10 | the initial state: empty list, no current assessment, not loading, no error, no response, idle |
| AssessmentSlice.AssessmentState.AssessmentRequest | frontend/src/redux/assessmentRelated/assessmentSlice.js:16-19 | status loading and loading true, nothing else changes |
| AssessmentSlice.AssessmentState.UnderControl | frontend/src/redux/assessmentRelated/assessmentSlice.js:20-23 | status idle and response null; loading and the rest unchanged |
| AssessmentSlice.AssessmentState.AssessmentSuccess | frontend/src/redux/assessmentRelated/assessmentSlice.js:24-30 | the list becomes the payload; loading, error and response are cleared |
| AssessmentSlice.AssessmentState.SingleAssessmentSuccess | frontend/src/redux/assessmentRelated/assessmentSlice.js:31-37 | the current assessment becomes the payload; the list is unchanged |
| AssessmentSlice.AssessmentState.AddAssessmentSuccess | frontend/src/redux/assessmentRelated/assessmentSlice.js:38-44 | the payload is appended and earlier items keep their place; status added, flags cleared |
| AssessmentSlice.AssessmentState.UpdateAssessmentSuccess | frontend/src/redux/assessmentRelated/assessmentSlice.js:45-54 | the first item with the payload's id is replaced, the length is kept, and with no match the list is unchanged |
| AssessmentSlice.AssessmentState.DeleteAssessmentSuccess | frontend/src/redux/assessmentRelated/assessmentSlice.js:55-60 | the items with the id are removed and the others keep their order; response is untouched |
| AssessmentSlice.AssessmentState.AssessmentFailed | frontend/src/redux/assessmentRelated/assessmentSlice.js:61-65 | response is set, loading cleared, error left alone |
| AssessmentSlice.AssessmentState.AssessmentError | frontend/src/redux/assessmentRelated/assessmentSlice.js:66-70 | error is set, loading cleared, response left alone |
| AssessmentSlice.AssessmentState.ClearCurrentAssessment | frontend/src/redux/assessmentRelated/assessmentSlice.js:71-73 | only the current assessment is cleared |
| TeacherSlice.TeacherState.constructor | frontend/src/redux/teacherRelated/teacherSlice.js:3-9 | both lists empty, not loading, no error, no response |
| TeacherSlice.TeacherState.GetRequest | frontend/src/redux/teacherRelated/teacherSlice.js:15-17 | only loading is set |
| TeacherSlice.TeacherState.DoneSuccess | frontend/src/redux/teacherRelated/teacherSlice.js:18-23 | the details take the payload; loading, error and response cleared; the list kept |
| TeacherSlice.TeacherState.GetSuccess | frontend/src/redux/teacherRelated/teacherSlice.js:24-29 | the list takes the payload; loading, error and response cleared; the details kept |
| TeacherSlice.TeacherState.GetFailed | frontend/src/redux/teacherRelated/teacherSlice.js:30-34 | the response takes the payload; loading and error cleared |
| TeacherSlice.TeacherState.GetError | frontend/src/redux/teacherRelated/teacherSlice.js:35-38 | error set, loading cleared, response kept |
| TeacherSlice.TeacherState.PostDone | frontend/src/redux/teacherRelated/teacherSlice.js:39-43 | loading, error and response cleared |
| TeacherSlice.TeacherState.UpdateStatusRequest | frontend/src/redux/teacherRelated/teacherSlice.js:44-47 | loading set and error cleared |
| TeacherSlice.TeacherState.UpdateStatusSuccess | frontend/src/redux/teacherRelated/teacherSlice.js:48-52 | response is the fixed success message; loading and error cleared |
| TeacherSlice.TeacherState.UpdateStatusFailed | frontend/src/redux/teacherRelated/teacherSlice.js:53-56 | error set, loading cleared, response kept |
| BulkAttendance.CountPresent | frontend/src/pages/teacher/BulkAttendance.js:92-103 | the present count never exceeds the number of rows |
| BulkAttendance.SummaryOf | frontend/src/pages/teacher/BulkAttendance.js:92-103 | total is the number of rows and present plus absent is the total |
| BulkAttendance.CountUniform | frontend/src/pages/teacher/BulkAttendance.js:135-145 | rows that all share one status are all present or none are |
| BulkAttendance.InitialEntries | frontend/src/pages/teacher/BulkAttendance.js:48-66 | one Present row per class student, in order, carrying that student's id, name and roll number |
| BulkAttendance.WithStatus | frontend/src/pages/teacher/BulkAttendance.js:82-89 | the student's rows take the new status and every other row is unchanged |
| BulkAttendance.AllWithStatus | frontend/src/pages/teacher/BulkAttendance.js:135-145 | every row takes the status, with nothing else changed |
| BulkAttendance.WithStatusCount | frontend/src/pages/teacher/BulkAttendance.js:82-103 | with distinct student ids, one change moves the present count by at most one, up for Present and down for Absent |
| BulkAttendance.Filtered | frontend/src/pages/teacher/BulkAttendance.js:147-150 | the rows shown are exactly those whose lower-cased name contains the lower-cased query or whose roll number contains the query |
| BulkAttendance.FilteredKeepsOrder | frontend/src/pages/teacher/BulkAttendance.js:147-150 | the rows shown keep the sheet's order |
| BulkAttendance.FilteredEmptyQuery | frontend/src/pages/teacher/BulkAttendance.js:147-150 | an empty query shows every row |
| BulkAttendance.Updates | frontend/src/pages/teacher/BulkAttendance.js:112-119 | one update per row, in order, with that row's student and status and the subject id and date |
| BulkAttendance.SubmitDisabled | frontend/src/pages/teacher/BulkAttendance.js:279 | an enabled Submit button means no submission is running and at least one update will be sent |
| BulkAttendance.BulkAttendanceSheet.constructor | frontend/src/pages/teacher/BulkAttendance.js:28-41 | the sheet starts with no rows and the summary 0/0/0 |
| BulkAttendance.BulkAttendanceSheet.Initialize | frontend/src/pages/teacher/BulkAttendance.js:48-66 | a non-empty class list gives all-Present rows with summary n/0/n; an empty one changes nothing |
| BulkAttendance.BulkAttendanceSheet.HandleStatusChange | frontend/src/pages/teacher/BulkAttendance.js:82-103 | the rows are edited as `WithStatus` says and the summary again describes them |
| BulkAttendance.BulkAttendanceSheet.HandleSetAllStatus | frontend/src/pages/teacher/BulkAttendance.js:135-145 | every row takes the status; present is n for Present and 0 otherwise, absent is n for Absent and 0 otherwise |
| BulkAttendance.BulkAttendanceSheet.FilteredAttendanceData | frontend/src/pages/teacher/BulkAttendance.js:147-150 | the filter applied to the current rows |
| StudentSubjects.SubjectKey | frontend/src/pages/student/StudentSubjects.js:99-101 | an assessment is counted exactly when its subject is a populated object |
| StudentSubjects.Tally | frontend/src/pages/student/StudentSubjects.js:98-123 | every subject in the dictionary is the key of some assessment of the response |
| StudentSubjects.TallyCounts | frontend/src/pages/student/StudentSubjects.js:98-123 | a subject appears exactly when some assessment counts for it; its total is the number of such assessments and its completed count those whose first roster entry for the student is Completed, never more than the total |
| StudentSubjects.TallyWellFormed | frontend/src/pages/student/StudentSubjects.js:98-123 | every tallied subject has a total of at least 1 and no more completions than its total |
| StudentSubjects.Percentage | frontend/src/pages/student/StudentSubjects.js:126-129 | the percentage lies in 0..100, is within one half of 100 · completed / total, is 100 when all are completed and 0 when none are |
| StudentSubjects.Completion | frontend/src/pages/student/StudentSubjects.js:126-129 | a subject's entry keeps its counts, and its percentage lies in 0..100 |
| StudentSubjects.WithPercentages | frontend/src/pages/student/StudentSubjects.js:126-129 | every tallied subject, and no other, gets a percentage |
| StudentSubjects.AttachPercentages | frontend/src/pages/student/StudentSubjects.js:126-129 | the loop over the keys computes `WithPercentages` |
| StudentSubjects.StudentSubjectsPage.CalculateSubjectCompletion | frontend/src/pages/student/StudentSubjects.js:93-132 | a non-array response changes nothing; otherwise the loop computes the tally of the assessments and the page shows its percentages |
| StudentSubjects.StudentSubjectsPage.constructor | frontend/src/pages/student/StudentSubjects.js:54 | the page starts with no completion data, which satisfies the 0..100 invariant |
| StudentSubjects.StudentSubjectsPage.GetSubjectCompletionPercentage | frontend/src/pages/student/StudentSubjects.js:135-137 | the subject's percentage, or 0 for a subject without data, always in 0..100 |
| ClientTypes.StudentResult | frontend/src/pages/student/StudentAssessmentPage.js:110-115 | no result without a roster; otherwise the first entry for the user, and none when there is none |
| ClientTypes.FileViewUrl | frontend/src/pages/student/StudentAssessmentPage.js:90 | the URL starts with the base and carries the file id after "/files/" |
| ClientTypes.FileViewUrlInjective | frontend/src/pages/student/StudentAssessmentPage.js:90 | different files get different URLs |
| StudentAssessmentPage.Ongoing | frontend/src/pages/student/StudentAssessmentPage.js:106 | the ongoing tab holds exactly the list's assessments that are not completed |
| StudentAssessmentPage.Completed | frontend/src/pages/student/StudentAssessmentPage.js:107 | the completed tab holds exactly the list's completed assessments |
| StudentAssessmentPage.TabsPartition | frontend/src/pages/student/StudentAssessmentPage.js:106-107 | the two tabs together are the list, counting repeats |
| StudentAssessmentPage.OngoingInOrder | frontend/src/pages/student/StudentAssessmentPage.js:106 | the ongoing tab keeps the list's order |
| StudentAssessmentPage.CompletedInOrder | frontend/src/pages/student/StudentAssessmentPage.js:107 | the completed tab keeps the list's order |
| StudentAssessmentPage.TabsOf | frontend/src/pages/student/StudentAssessmentPage.js:106-107 | the page fails to render exactly when its state holds the message object; otherwise the ongoing tab holds exactly the listed assessments that are not completed and the completed tab exactly the completed ones |
| StudentAssessmentPage.TabsOfListed | frontend/src/pages/student/StudentAssessmentPage.js:35-107 | whenever the tabs render they split the listed assessments between them, counting repeats, each in the list's order; the initial empty list and a null body give two empty tabs |
| StudentAssessmentPage.EmptySubjectFailsToRender | frontend/src/pages/student/StudentAssessmentPage.js:58-107 | the "No assessments found for this subject" reply stored as the page state makes the render fail |
| StudentAssessmentPage.MarksCellOf | frontend/src/pages/student/StudentAssessmentPage.js:157-159 | the mark is shown exactly when there is an entry with a numeric mark; otherwise "Not graded yet" |
| StudentAssessmentPage.StatusLabel | frontend/src/pages/student/StudentAssessmentPage.js:163 | the entry's non-empty status, or "Pending" |
| StudentAssessmentPage.StatusColor | frontend/src/pages/student/StudentAssessmentPage.js:164-170 | success exactly for Completed, info exactly for Submitted, warning otherwise |
| StudentAssessmentPage.StatusChipAgrees | frontend/src/pages/student/StudentAssessmentPage.js:163-170 | a success chip reads "Completed" and an info chip reads "Submitted" |
| StudentAssessmentPage.SubjectCell | frontend/src/pages/student/StudentAssessmentPage.js:147-150 | a populated subject's name, otherwise "Unknown Subject" |
| StudentAssessmentPage.SolutionVisible | frontend/src/pages/student/StudentAssessmentPage.js:186-191 | the Solution button shows only on a completed assessment, and pressing it always opens the viewer rather than the missing-PDF error |
| StudentAssessmentPage.FileIdText | frontend/src/pages/student/StudentAssessmentPage.js:89 | a bare id is used as it is; an object with a non-empty `_id` is unwrapped to it |
| StudentAssessmentPage.ViewPdf | frontend/src/pages/student/StudentAssessmentPage.js:83-94 | a falsy id gives "No PDF document available" and no viewer; otherwise the viewer opens the file's view URL |
| StudentAssessmentPage.ViewPdfUnwraps | frontend/src/pages/student/StudentAssessmentPage.js:89-90 | a bare id and the populated object carrying it open the same URL |
| StudentResultsTable.ScoreColor | frontend/src/components/assessment/StudentResultsTable.js:20-26 | a falsy score is warning; otherwise success exactly from 75 percent and error exactly below 60 percent; a zero total decides by the sign of the score |
| StudentResultsTable.ScoreBands | frontend/src/components/assessment/StudentResultsTable.js:20-26 | for a positive total: success iff 4·score ≥ 3·total, warning iff 5·score ≥ 3·total > 4·score, error iff 5·score < 3·total |
| StudentResultsTable.PercentAtLeast | frontend/src/components/assessment/StudentResultsTable.js:22 | for a positive total, the percentage reaches a bound exactly when 100·score reaches bound·total |
| StudentResultsTable.ScoreColorMonotone | frontend/src/components/assessment/StudentResultsTable.js:20-26 | a higher positive score never gets a worse colour |
| StudentResultsTable.MarksLabelOf | frontend/src/components/assessment/StudentResultsTable.js:66-70 | "Pending" exactly for a null mark, otherwise marks over total |
| StudentResultsTable.UndefinedMarksPrinted | frontend/src/components/assessment/StudentResultsTable.js:66-71 | an absent mark is printed as "undefined" over the total, in a warning chip |
| StudentResultsTable.StatusChipColor | frontend/src/components/assessment/StudentResultsTable.js:77-80 | success exactly for Completed, warning otherwise |
| StudentResultsTable.StudentCount | frontend/src/components/assessment/StudentResultsTable.js:42 | the roster's length, 0 without a roster |
| StudentResultsTable.RowsOf | frontend/src/components/assessment/StudentResultsTable.js:59-82 | one row per roster entry, in order |
| StudentResultsTable.RowOf | frontend/src/components/assessment/StudentResultsTable.js:59-82 | a row shows the entry's name and status as given; its marks read "Pending" exactly for a null mark; its status chip is green exactly for Completed; its marks chip has the score colour |
| StudentResultsTable.Rows | frontend/src/components/assessment/StudentResultsTable.js:48-91 | the empty-results message exactly when the roster is missing or empty; otherwise a row per entry with its name, marks label and status colour |
| TeacherAssessmentPage.Toggle | frontend/src/pages/teacher/TeacherAssessmentPage.js:68-73 | only the row's key flips, with a missing key read as closed; every other key is kept |
| TeacherAssessmentPage.IsOpen | frontend/src/pages/teacher/TeacherAssessmentPage.js:287 | a row never toggled is closed; a toggled one is open exactly when its stored flag is true |
| TeacherAssessmentPage.ToggleTwice | frontend/src/pages/teacher/TeacherAssessmentPage.js:68-73 | toggling twice restores whether the row is open, and other rows never move |
| TeacherAssessmentPage.ToggleCommutes | frontend/src/pages/teacher/TeacherAssessmentPage.js:68-73 | toggles of two rows commute |
| TeacherAssessmentPage.SolutionButtonOf | frontend/src/pages/teacher/TeacherAssessmentPage.js:309-323 | hidden exactly for an ongoing assessment, enabled exactly for a completed one with a solution file |
| TeacherAssessmentPage.SolutionButtonAgreesWithStudentPage | frontend/src/pages/teacher/TeacherAssessmentPage.js:309-323 | the teacher's button is enabled exactly where the student's is shown |
| TeacherAssessmentPage.Details | frontend/src/pages/teacher/TeacherAssessmentPage.js:76-82 | the expanded row shows the student count and the shared results table, each marks chip coloured by the same score bands |
| TeacherAssessmentPage.ViewerUrl | frontend/src/pages/teacher/TeacherAssessmentPage.js:85-100 | no URL exactly for a falsy id; a bare id opens its view URL |
| TeacherAssessmentPage.ViewerUrlAgreesWithStudentPage | frontend/src/pages/teacher/TeacherAssessmentPage.js:85-100 | for an id that is not a populated object, both pages refuse or open the same URL |
| TeacherAssessmentPage.TeacherAssessmentView.HandleOpen | frontend/src/pages/teacher/TeacherAssessmentPage.js:68-73 | the open map becomes its toggle; nothing else changes |
| TeacherAssessmentPage.TeacherAssessmentView.constructor | frontend/src/pages/teacher/TeacherAssessmentPage.js:51-60 | no row is open, no dialog is open, nothing is selected or loading, and there is no message, URL or error |
| TeacherAssessmentPage.TeacherAssessmentView.HandleViewPdf | frontend/src/pages/teacher/TeacherAssessmentPage.js:85-100 | a falsy id shows the popup and leaves the viewer alone; otherwise the viewer opens, loading, on the URL, with no error |
| TeacherAssessmentPage.TeacherAssessmentView.HandleClosePdf | frontend/src/pages/teacher/TeacherAssessmentPage.js:102-105 | the viewer closes and forgets its URL |
| TeacherAssessmentPage.TeacherAssessmentView.HandleStatusChange | frontend/src/pages/teacher/TeacherAssessmentPage.js:118-121 | the row is selected and the dialog opens |
| TeacherAssessmentPage.TeacherAssessmentView.ConfirmStatusChange | frontend/src/pages/teacher/TeacherAssessmentPage.js:123-141 | without a selection nothing happens; otherwise the request asks for the negation of the row's `isCompleted` and the dialog shows progress |
| TeacherAssessmentPage.TeacherAssessmentView.StatusChangeSettled | frontend/src/pages/teacher/TeacherAssessmentPage.js:123-141 | afterwards the dialog is closed and not loading |
| TeacherCreateAssessmentPage.Field | frontend/src/pages/teacher/TeacherCreateAssessmentPage.js:66-72 | a field the form never set reads as undefined |
| TeacherCreateAssessmentPage.InitialFormData | frontend/src/pages/teacher/TeacherCreateAssessmentPage.js:29-36 | the initial form: empty title and description, today's date, 100 marks, the route's subject id and the user's id or "" |
| TeacherCreateAssessmentPage.Validate | frontend/src/pages/teacher/TeacherCreateAssessmentPage.js:87-97 | the required-fields error exactly when the title or marks are falsy or there is no file; the marks error exactly when those pass and the marks read as a number at most 0 |
| TeacherCreateAssessmentPage.ValidFormHasPositiveMarks | frontend/src/pages/teacher/TeacherCreateAssessmentPage.js:87-97 | a valid form has a title, a file, and positive marks whenever they read as a number |
| TeacherCreateAssessmentPage.ZeroMarksTextRejected | frontend/src/pages/teacher/TeacherCreateAssessmentPage.js:92-95 | the text "0" passes the first rule and is caught by the second |
| TeacherCreateAssessmentPage.WholeMarksTextAccepted | frontend/src/pages/teacher/TeacherCreateAssessmentPage.js:87-97 | whole-number marks text is accepted exactly when the number is positive |
| TeacherCreateAssessmentPage.Payload | frontend/src/pages/teacher/TeacherCreateAssessmentPage.js:114-121 | exactly title, description, date, totalMarks, subjectId, teacherId and the question file, in that order, each with the form's value |
| TeacherCreateAssessmentPage.Submit | frontend/src/pages/teacher/TeacherCreateAssessmentPage.js:99-124 | refused with the validation message, then with the subject-id message when the id is falsy or "undefined"; otherwise the payload is dispatched |
| TeacherCreateAssessmentPage.DispatchedPayloadComplete | frontend/src/pages/teacher/TeacherCreateAssessmentPage.js:107-121 | a dispatched payload always has a file and a usable subject id |
| TeacherCreateAssessmentPage.CreateAssessmentForm.constructor | frontend/src/pages/teacher/TeacherCreateAssessmentPage.js:29-36 | the form starts from the initial data, with no file and no errors |
| TeacherCreateAssessmentPage.CreateAssessmentForm.SyncIds | frontend/src/pages/teacher/TeacherCreateAssessmentPage.js:44-52 | once both ids are known they are copied into the form; otherwise nothing changes |
| TeacherCreateAssessmentPage.CreateAssessmentForm.HandleInputChange | frontend/src/pages/teacher/TeacherCreateAssessmentPage.js:66-72 | only the named field changes, to the input's text |
| TeacherCreateAssessmentPage.CreateAssessmentForm.HandleFileChange | frontend/src/pages/teacher/TeacherCreateAssessmentPage.js:74-85 | no file changes nothing; a non-PDF sets the error and clears the selection; a PDF is selected and the error cleared |
| TeacherCreateAssessmentPage.CreateAssessmentForm.HandleSubmit | frontend/src/pages/teacher/TeacherCreateAssessmentPage.js:99-124 | a refused submit shows its message and dispatches nothing; otherwise the error is cleared and the payload is dispatched |
| TeacherClassDetails.Compare | frontend/src/pages/teacher/TeacherClassDetails.js:51-63 | the difference of the parsed roll numbers when both parse, the text comparison otherwise |
| TeacherClassDetails.CompareAntisymmetric | frontend/src/pages/teacher/TeacherClassDetails.js:51-63 | swapping two students negates the comparison |
| TeacherClassDetails.SortPermutation | frontend/src/pages/teacher/TeacherClassDetails.js:50-63 | the sorted rows are a permutation of the students |
| TeacherClassDetails.Sort | frontend/src/pages/teacher/TeacherClassDetails.js:50-63 | the sorted copy has as many rows as the class; its contents and order are stated by SortPermutation, SortMembership and SortInOrder |
| TeacherClassDetails.SortMembership | frontend/src/pages/teacher/TeacherClassDetails.js:50-63 | a student is among the sorted rows exactly when it is in the class list |
| TeacherClassDetails.SortInOrder | frontend/src/pages/teacher/TeacherClassDetails.js:50-63 | whatever the roll numbers, no neighbouring pair is one the comparator would swap |
| TeacherClassDetails.NumericRollsAscend | frontend/src/pages/teacher/TeacherClassDetails.js:53-59 | when every roll number parses, the rows ascend numerically |
| TeacherClassDetails.TextRollsAscend | frontend/src/pages/teacher/TeacherClassDetails.js:61-62 | when no roll number parses, the rows ascend as text |
| TeacherClassDetails.Project | frontend/src/pages/teacher/TeacherClassDetails.js:64-70 | each row keeps exactly a student's name, roll number and id |
| TeacherClassDetails.StudentRows | frontend/src/pages/teacher/TeacherClassDetails.js:50-70 | one row per student; StudentRowsCover states which rows |
| TeacherClassDetails.StudentRowsCover | frontend/src/pages/teacher/TeacherClassDetails.js:50-70 | every student of the class gets a row, and every row is some student's |
| JsRuntime.ParseIntDecimalString | frontend/src/pages/teacher/TeacherClassDetails.js:53-54 | `parseInt` reads back the number whose decimal numeral it is given |
| JsRuntime.ParseIntOfDigits | frontend/src/pages/teacher/TeacherClassDetails.js:53-54 | a digit string without a leading zero reads as its value |
| JsRuntime.ParseIntOfNonNumeric | frontend/src/pages/teacher/TeacherClassDetails.js:53-56 | text starting with a character that is not blank, a sign or a digit is NaN |
| JsRuntime.ParseInt | frontend/src/pages/teacher/TeacherClassDetails.js:53-54 | a number needs some text after the leading blanks, and a negative one a leading minus |
| JsRuntime.StringToNumberDecimal | frontend/src/pages/teacher/TeacherCreateAssessmentPage.js:92 | the numeral of a whole number converts back to that number |
| JsRuntime.StringToNumber | frontend/src/pages/teacher/TeacherCreateAssessmentPage.js:92 | all-blank text is 0, and a negative number needs a leading minus |
| JsRuntime.LocaleCompare | frontend/src/pages/teacher/TeacherClassDetails.js:61-62 | the comparison is -1, 0 or 1, and 0 exactly for equal texts |
| JsRuntime.LocaleCompareAntisymmetric | frontend/src/pages/teacher/TeacherClassDetails.js:61-62 | swapping the texts negates the comparison |
| JsRuntime.LocaleCompareTransitive | frontend/src/pages/teacher/TeacherClassDetails.js:61-62 | the text order is transitive |
| JsRuntime.ToLower | frontend/src/pages/teacher/BulkAttendance.js:147-150 | same length, each letter lower-cased, no upper-case letter left |
| JsRuntime.ToLowerIdempotent | frontend/src/pages/teacher/BulkAttendance.js:147-150 | lower-casing twice equals lower-casing once |
| JsRuntime.IncludesEmpty | frontend/src/pages/teacher/BulkAttendance.js:147-150 | every text includes the empty text |
| JsRuntime.Includes | frontend/src/pages/teacher/BulkAttendance.js:148-149 | only a text at least as long as the searched one can include it |
| JsRuntime.IncludesAt | frontend/src/pages/teacher/BulkAttendance.js:148-149 | an occurrence at any position makes the text include it |
| JsRuntime.IncludesWitness | frontend/src/pages/teacher/BulkAttendance.js:148-149 | a text that includes another has it at some position |
| JsRuntime.RoundedPercentage | frontend/src/pages/student/StudentSubjects.js:126-129 | the integer is within one half of 100 · completed / total |
| JsRuntime.RoundedPercentageRange | frontend/src/pages/student/StudentSubjects.js:126-129 | it lies in 0..100, and is 100 when all are completed and 0 when none are |

## Left out

- Concurrency: two submissions racing on one record's read-modify-write are not modelled. Every handler runs alone, in sequence.
- Mongoose itself: `populate` joins, cast errors for malformed ids, and `Date` casting. A date is kept as the text it was cast from, and an empty text counts as missing.
- Mongoose casting of typed body fields: request values arrive already typed here (`marks` and `totalMarks` as numbers, `isCompleted` as a boolean). Mongoose's casts and their failures are not modelled, namely:
  - `marks` sent as text (`backend/controllers/assessment-controller.js:204`). It is cast to a number, or it makes `save()` throw a CastError and answer 500.
  - `totalMarks` as text in create and update. Every multipart body field is a string, so text like "abc" answers 500.
  - `isCompleted` as `null` or a non-boolean in `completeAssessment` (`backend/controllers/assessment-controller.js:236`). `null` is stored, and a value such as "maybe" answers 500.
- Backend marks: an undefined mark and a null mark are one value, `None`.
- `AssessmentController.Database.Update`: a body that carries a `students` array is not modelled. The `Patch` has no roster field, so the roster is always kept.
- `AssessmentController.Database.Get`: the populated subject, teacher and student references are not returned. The stored record is returned.
- The file routes and the file controller: streaming, headers and pipes. `backend/controllers/file-controller.js` and `backend/routes/file-route.js` are not part of this model.
- `ensureGridFSReady`, server boot and the `global.gfs` handle: these are I/O and process-wide mutable globals. The same goes for `backend/index.js` and `backend/server.js`.
- The axios thunks in `assessmentHandle.js` and `teacherHandle.js` are network clients. The teacher thunk always sends `isCompleted: true`, so reopening is modelled at the controller only.
- `getStudentAssessments` is imported by `backend/routes/assessment-route.js:10` but the controller does not export it, so `/student/:id` is registered with an undefined handler. Express refuses that when the router is built. Whether the server then starts depends on how `routes/route.js` loads this router, and `routes/route.js` is not part of this model. The student page's `fetchAllStudentAssessments` is therefore not modelled.
- Reads that throw answer 500 and change nothing: the `findById` and `find` queries of every handler, and `findByIdAndUpdate` in `updateAssessment`. These are not modelled. The failures that follow a write are parameters, as listed above.
- `AssessmentController.Database.Create`: the 201 reply also echoes multer's `file` object (`backend/controllers/assessment-controller.js:58-61`). The reply here is the saved record alone.
- `AssessmentController.Database.SubjectAssessments`: the assessments are answered as a set of ids. Their collection order and populated teacher and subject names are not modelled.
- `AssessmentController.Database.Delete`: the `{ success: true, ... }` body is modelled as its message text only.
- `{ timestamps: true }` (`backend/models/assessmentSchema.js:61`): the `createdAt` and `updatedAt` fields Mongoose maintains are not modelled. No handler reads them.
- Complaint CRUD and the complaint pages, `PDFViewer.js` and `TeacherHomePage.js`: these are queries and presentation with no behaviour to verify.
- `AssessmentSlice.AssessmentState.AssessmentSuccess`: a payload that is not an array is not modelled. The payload is typed as a list. The `{ message }` object that `getSubjectAssessments` answers for a subject with no assessments would be stored as-is. That case is modelled for the student page's own state (`StudentAssessmentPage.TabsOf`), not for the slice.
- Floating point: scores, totals and percentages are exact reals, and `Math.round` is exact rounding of a rational. Float rounding at the band edges is not modelled.
- `JsRuntime.LocaleCompare`: this is code-unit lexicographic order, a total order. Locale-specific collation is not modelled.
- `JsRuntime.ToLower`: only the ASCII letters are lower-cased, with no Unicode case mapping.
- `JsRuntime.StringToNumber`: only plain decimals with an optional sign and fraction are read. Exponents, hex, `Infinity` and other texts are NaN here. Outside those forms, `AtMostZero` is weaker than JavaScript's `Number(...) <= 0`.
- `JsRuntime.ParseInt`: a decimal or "0x" prefix parse. The sign of zero is not modelled: "-0" reads as 0, which is all the numeric comparator needs. Values beyond a double's exact range are not modelled either.
- `TeacherClassDetails.Sort`: JavaScript's `sort` algorithm is unspecified, so a stable insertion sort stands in. The order is claimed only where the comparator is consistent: all roll numbers numeric, or none. With mixed roll numbers the comparator is not transitive, and only `SortInOrder` (neighbours in order) and the permutation are proved.
- Roll numbers are handled as text on the client. A number-typed `rollNum` is not modelled.
- `TeacherAssessmentPage.ViewerUrl`: this page prints a populated file reference as "[object Object]" instead of unwrapping it. The list endpoint sends bare ids, which is where the two pages agree.
- Presentation details: formatted dates, themes, tabs, popups and notification timing are not modelled.
