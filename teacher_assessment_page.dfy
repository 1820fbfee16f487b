/**
 * The teacher's assessment list: rows that expand to show the results table, the PDF
 * viewer dialog, and the confirmation dialog that requests a status change.
 */
module TeacherAssessmentPage {
  import opened Wrappers
  import opened ClientTypes
  import StudentResultsTable
  import StudentAssessmentPage

  // ---------------------------------------------------------------- expanded rows

  /** `openStates[id]` read as a boolean: a key never toggled is closed. */
  predicate IsOpen(openStates: map<string, bool>, id: string)
    ensures id !in openStates ==> !IsOpen(openStates, id)
    ensures id in openStates ==> (IsOpen(openStates, id) <==> openStates[id])
  {
    id in openStates && openStates[id]
  }

  /** `{...prev, [id]: !prev[id]}`. */
  function Toggle(openStates: map<string, bool>, id: string): (r: map<string, bool>)
    ensures r.Keys == openStates.Keys + {id}
    ensures IsOpen(r, id) == !IsOpen(openStates, id)
    ensures forall k :: k in openStates && k != id ==> r[k] == openStates[k]
  {
    openStates[id := !IsOpen(openStates, id)]
  }

  /** Toggling a row twice restores whether it is open, and no other row moves. */
  lemma ToggleTwice(openStates: map<string, bool>, id: string, other: string)
    requires other != id
    ensures IsOpen(Toggle(Toggle(openStates, id), id), id) == IsOpen(openStates, id)
    ensures IsOpen(Toggle(openStates, id), other) == IsOpen(openStates, other)
  {
  }

  /** Toggles of different rows commute. */
  lemma ToggleCommutes(openStates: map<string, bool>, a: string, b: string)
    ensures Toggle(Toggle(openStates, a), b) == Toggle(Toggle(openStates, b), a)
  {
    if a != b {
      var l, r := Toggle(Toggle(openStates, a), b), Toggle(Toggle(openStates, b), a);
      assert l.Keys == r.Keys;
      forall k | k in l.Keys ensures l[k] == r[k] {
        if k != a && k != b { assert l[k] == openStates[k]; }
      }
    }
  }

  // ---------------------------------------------------------------- row contents

  datatype SolutionButton = Hidden | Disabled | Enabled

  /** The Solutions button: only on completed rows, and disabled without a solution file. */
  function SolutionButtonOf(a: ClientAssessment): (b: SolutionButton)
    ensures b == Hidden <==> !a.isCompleted
    ensures b == Enabled <==> a.isCompleted && RefTruthy(a.solutionPdfUrl)
  {
    if !a.isCompleted then Hidden else if RefTruthy(a.solutionPdfUrl) then Enabled else Disabled
  }

  /** Where the student page shows the button, the teacher page enables it. */
  lemma SolutionButtonAgreesWithStudentPage(a: ClientAssessment)
    ensures SolutionButtonOf(a) == Enabled <==> StudentAssessmentPage.SolutionVisible(a)
  {
  }

  /**
   * The expanded details of a row: the student count and the same results table as
   * StudentResultsTable, whose `getScoreColor` this page repeats word for word.
   */
  function Details(a: ClientAssessment): (d: (nat, Option<seq<StudentResultsTable.ResultRow>>))
    ensures d.0 == StudentResultsTable.StudentCount(a.students)
    ensures d.1.None? <==> d.0 == 0
    ensures d.1.Some? ==> |d.1.value| == d.0
    ensures d.1.Some? ==> forall i :: 0 <= i < d.0 ==>
      d.1.value[i].marksColor == StudentResultsTable.ScoreColor(a.students.value[i].marks, a.totalMarks)
  {
    (StudentResultsTable.StudentCount(a.students), StudentResultsTable.Rows(a.students, a.totalMarks))
  }

  // ---------------------------------------------------------------- the viewer

  const NoPdfMessage: string := "No PDF document available"

  /** The URL `handleViewPdf` opens: None for a falsy id; the reference is printed as it is. */
  function ViewerUrl(base: string, fileId: Ref): (url: Option<string>)
    ensures url.None? <==> !RefTruthy(fileId)
    ensures fileId.RefId? && fileId.id != "" ==> url == Some(FileViewUrl(base, fileId.id))
  {
    if !RefTruthy(fileId) then None else Some(FileViewUrl(base, RefText(fileId)))
  }

  /** For a bare id, which is what the list endpoint sends, both pages open the same URL. */
  lemma ViewerUrlAgreesWithStudentPage(base: string, fileId: Ref)
    requires !fileId.RefObject?
    ensures ViewerUrl(base, fileId).None? <==> StudentAssessmentPage.ViewPdf(base, fileId).ShowError?
    ensures ViewerUrl(base, fileId).Some? ==>
      StudentAssessmentPage.ViewPdf(base, fileId) == StudentAssessmentPage.OpenViewer(ViewerUrl(base, fileId).value)
  {
  }

  /** The status a confirmed change asks for, with the assessment it is for. */
  datatype StatusRequest = StatusRequest(assessmentId: string, isCompleted: bool)

  /** The page's own state: expanded rows, the PDF dialog and the confirmation dialog. */
  class TeacherAssessmentView {
    var openStates: map<string, bool>
    var confirmDialogOpen: bool
    var selectedAssessment: Option<ClientAssessment>
    var message: string
    var statusChangeLoading: bool
    var showPopup: bool
    var pdfOpen: bool
    var currentPdfUrl: string
    var pdfLoading: bool
    var pdfError: Option<string>

    constructor ()
      ensures openStates == map[] && !confirmDialogOpen && selectedAssessment.None?
      ensures message == "" && !statusChangeLoading && !showPopup
      ensures !pdfOpen && currentPdfUrl == "" && !pdfLoading && pdfError.None?
    {
      openStates, confirmDialogOpen, selectedAssessment := map[], false, None;
      message, statusChangeLoading, showPopup := "", false, false;
      pdfOpen, currentPdfUrl, pdfLoading, pdfError := false, "", false, None;
    }

    /** `handleOpen`: flips one row and nothing else. */
    method HandleOpen(id: string)
      modifies this`openStates
      ensures openStates == Toggle(old(openStates), id)
    {
      openStates := openStates[id := !IsOpen(openStates, id)];
    }

    /**
     * `handleViewPdf`: a falsy id shows the popup message and leaves the viewer as it was;
     * otherwise the viewer opens on the file's URL in the loading state.
     */
    method HandleViewPdf(base: string, fileId: Ref)
      modifies this`message, this`showPopup, this`currentPdfUrl, this`pdfLoading, this`pdfError, this`pdfOpen
      ensures ViewerUrl(base, fileId).None? ==>
        message == NoPdfMessage && showPopup
        && pdfOpen == old(pdfOpen) && currentPdfUrl == old(currentPdfUrl)
        && pdfLoading == old(pdfLoading) && pdfError == old(pdfError)
      ensures ViewerUrl(base, fileId).Some? ==>
        currentPdfUrl == ViewerUrl(base, fileId).value && pdfLoading && pdfError.None? && pdfOpen
        && message == old(message) && showPopup == old(showPopup)
    {
      if !RefTruthy(fileId) {
        message, showPopup := NoPdfMessage, true;
        return;
      }
      var pdfUrl := FileViewUrl(base, RefText(fileId));
      currentPdfUrl := pdfUrl;
      pdfLoading := true;
      pdfError := None;
      pdfOpen := true;
    }

    method HandleClosePdf()
      modifies this`pdfOpen, this`currentPdfUrl
      ensures !pdfOpen && currentPdfUrl == ""
    {
      pdfOpen, currentPdfUrl := false, "";
    }

    /** `handleStatusChange`: remember the row and ask for confirmation. */
    method HandleStatusChange(a: ClientAssessment)
      modifies this`selectedAssessment, this`confirmDialogOpen
      ensures selectedAssessment == Some(a) && confirmDialogOpen
    {
      selectedAssessment, confirmDialogOpen := Some(a), true;
    }

    /**
     * `confirmStatusChange`: without a selection nothing happens; otherwise the request asks
     * for the opposite of the selected row's `isCompleted` and the dialog shows progress.
     */
    method ConfirmStatusChange() returns (request: Option<StatusRequest>)
      modifies this`statusChangeLoading
      ensures selectedAssessment.None? ==> request.None? && statusChangeLoading == old(statusChangeLoading)
      ensures selectedAssessment.Some? ==>
        request == Some(StatusRequest(selectedAssessment.value.id, !selectedAssessment.value.isCompleted))
        && statusChangeLoading
    {
      if selectedAssessment.None? {
        return None;
      }
      statusChangeLoading := true;
      var newStatus := !selectedAssessment.value.isCompleted;
      request := Some(StatusRequest(selectedAssessment.value.id, newStatus));
    }

    /** Whether the request succeeds or fails, the dialog closes and stops loading. */
    method StatusChangeSettled()
      modifies this`confirmDialogOpen, this`statusChangeLoading
      ensures !confirmDialogOpen && !statusChangeLoading
    {
      confirmDialogOpen, statusChangeLoading := false, false;
    }
  }
}
