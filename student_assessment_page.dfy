/**
 * The student's assessment page: ongoing and completed tabs, the student's own mark and
 * status in each row, and the PDF viewer for question and solution files.
 */
module StudentAssessmentPage {
  import opened Wrappers
  import opened ClientTypes
  import opened Sequences

  // ---------------------------------------------------------------- the two tabs

  /** `assessments?.filter(a => !a.isCompleted) || []`; None models a missing list. */
  function Ongoing(list: seq<ClientAssessment>): (r: seq<ClientAssessment>)
    ensures |r| <= |list|
    ensures forall a :: a in r <==> a in list && !a.isCompleted
  {
    if list == [] then []
    else (if !list[0].isCompleted then [list[0]] else []) + Ongoing(list[1..])
  }

  /** `assessments?.filter(a => a.isCompleted) || []`. */
  function Completed(list: seq<ClientAssessment>): (r: seq<ClientAssessment>)
    ensures |r| <= |list|
    ensures forall a :: a in r <==> a in list && a.isCompleted
  {
    if list == [] then []
    else (if list[0].isCompleted then [list[0]] else []) + Completed(list[1..])
  }

  /**
   * What the page's `assessments` state holds: `useState([])` at first, then `response.data`
   * as it arrives. For a subject with no assessments that is the `{ message }` object, not an
   * array; `NoData` is a null or absent body.
   */
  datatype AssessmentsData = AssessmentList(items: seq<ClientAssessment>) | MessageObject(message: string) | NoData

  const InitialAssessments: AssessmentsData := AssessmentList([])

  /** The two tabs, or the render failing because the state has no `filter` to call. */
  datatype TabsOutcome = Tabs(ongoing: seq<ClientAssessment>, completed: seq<ClientAssessment>) | RenderFailure

  /** The elements the tabs draw from: the array, or nothing for null/undefined. */
  function ListedItems(data: AssessmentsData): seq<ClientAssessment>
  {
    if data.AssessmentList? then data.items else []
  }

  /**
   * `assessments?.filter(...) || []` for both tabs: null or undefined short-circuits to the
   * empty tab, an array is filtered, and an object without `filter` throws a TypeError.
   */
  function TabsOf(data: AssessmentsData): (t: TabsOutcome)
    ensures t.RenderFailure? <==> data.MessageObject?
    ensures t.Tabs? ==> forall a :: a in t.ongoing <==> a in ListedItems(data) && !a.isCompleted
    ensures t.Tabs? ==> forall a :: a in t.completed <==> a in ListedItems(data) && a.isCompleted
  {
    match data
    case MessageObject(_) => RenderFailure
    case NoData => Tabs([], [])
    case AssessmentList(items) => Tabs(Ongoing(items), Completed(items))
  }

  /** The tabs partition the list: every assessment lands in exactly one, counting repeats. */
  lemma {:induction false} TabsPartition(list: seq<ClientAssessment>)
    ensures multiset(Ongoing(list)) + multiset(Completed(list)) == multiset(list)
    ensures |Ongoing(list)| + |Completed(list)| == |list|
  {
    if list != [] {
      TabsPartition(list[1..]);
      assert list == [list[0]] + list[1..];
    }
  }

  /** The ongoing tab keeps the list's order. */
  lemma {:induction false} OngoingInOrder(list: seq<ClientAssessment>)
    ensures IsSubsequence(Ongoing(list), list)
  {
    if list != [] {
      OngoingInOrder(list[1..]);
      assert list == [list[0]] + list[1..];
      if list[0].isCompleted {
        assert Ongoing(list) == Ongoing(list[1..]);
        SubsequenceSkip(Ongoing(list[1..]), list[1..], list[0]);
      }
    }
  }

  /** The completed tab keeps the list's order. */
  lemma {:induction false} CompletedInOrder(list: seq<ClientAssessment>)
    ensures IsSubsequence(Completed(list), list)
  {
    if list != [] {
      CompletedInOrder(list[1..]);
      assert list == [list[0]] + list[1..];
      if !list[0].isCompleted {
        assert Completed(list) == Completed(list[1..]);
        SubsequenceSkip(Completed(list[1..]), list[1..], list[0]);
      }
    }
  }

  /**
   * Whenever the tabs render, they split the listed assessments between them, each in the
   * list's order; before any reply, and for a null body, both are empty.
   */
  lemma TabsOfListed(data: AssessmentsData)
    requires !data.MessageObject?
    ensures TabsOf(data).Tabs?
    ensures var t := TabsOf(data);
      && multiset(t.ongoing) + multiset(t.completed) == multiset(ListedItems(data))
      && IsSubsequence(t.ongoing, ListedItems(data)) && IsSubsequence(t.completed, ListedItems(data))
    ensures TabsOf(InitialAssessments) == TabsOf(NoData) == Tabs([], [])
  {
    TabsPartition(ListedItems(data));
    OngoingInOrder(ListedItems(data));
    CompletedInOrder(ListedItems(data));
  }

  /** The page for a subject with no assessments fails to render instead of showing empty tabs. */
  lemma EmptySubjectFailsToRender()
    ensures TabsOf(MessageObject("No assessments found for this subject")) == RenderFailure
  {
  }

  // ---------------------------------------------------------------- one row

  datatype MarksCell = ShowMarks(marks: real) | NotGradedYet

  /** The "Your Marks" cell: the mark unless it is null or undefined (or there is no entry). */
  function MarksCellOf(result: Option<ClientResult>): (c: MarksCell)
    ensures c.ShowMarks? <==> result.Some? && result.value.marks.MarksNum?
    ensures c.ShowMarks? ==> c.marks == result.value.marks.value
  {
    if result.Some? && result.value.marks.MarksNum? then ShowMarks(result.value.marks.value) else NotGradedYet
  }

  /** The status chip's label, `studentResult?.status || "Pending"`. */
  function StatusLabel(result: Option<ClientResult>): (text: string)
    ensures text != ""
    ensures result.None? || result.value.status.None? ==> text == "Pending"
    ensures result.Some? && result.value.status == Some("") ==> text == "Pending"
    ensures result.Some? && result.value.status.Some? && result.value.status.value != "" ==>
      text == result.value.status.value
  {
    if result.Some? && result.value.status.Some? && result.value.status.value != "" then result.value.status.value
    else "Pending"
  }

  /** The status chip's colour. */
  function StatusColor(result: Option<ClientResult>): (c: ChipColor)
    ensures c == SuccessChip <==> result.Some? && result.value.status == Some("Completed")
    ensures c == InfoChip <==> result.Some? && result.value.status == Some("Submitted")
    ensures c == SuccessChip || c == InfoChip || c == WarningChip
  {
    if result.Some? && result.value.status == Some("Completed") then SuccessChip
    else if result.Some? && result.value.status == Some("Submitted") then InfoChip
    else WarningChip
  }

  /** The label always matches the colour's reading of the status. */
  lemma StatusChipAgrees(result: Option<ClientResult>)
    ensures StatusColor(result) == SuccessChip ==> StatusLabel(result) == "Completed"
    ensures StatusColor(result) == InfoChip ==> StatusLabel(result) == "Submitted"
  {
  }

  /** The subject cell: the populated subject's name, or "Unknown Subject". */
  function SubjectCell(a: ClientAssessment): (text: Option<string>)
    ensures a.subject.RefObject? ==> text == a.subject.display
    ensures !a.subject.RefObject? ==> text == Some("Unknown Subject")
  {
    if a.subject.RefObject? then a.subject.display else Some("Unknown Subject")
  }

  /**
   * The Solution button is rendered only for a completed assessment that has a solution
   * file, so pressing it always opens the viewer and never shows the missing-PDF error.
   */
  predicate SolutionVisible(a: ClientAssessment)
    ensures SolutionVisible(a) ==> a.isCompleted && forall base :: ViewPdf(base, a.solutionPdfUrl).OpenViewer?
  {
    a.isCompleted && RefTruthy(a.solutionPdfUrl)
  }

  // ---------------------------------------------------------------- the viewer

  const NoPdfMessage: string := "No PDF document available"

  datatype ViewPdfOutcome = ShowError(message: string) | OpenViewer(url: string)

  /** The id a file reference stands for: a populated object is unwrapped to its `_id` when it has one. */
  function FileIdText(fileId: Ref): (t: string)
    requires RefTruthy(fileId)
    ensures fileId.RefId? ==> t == fileId.id
    ensures fileId.RefObject? && fileId.objectId.Some? && fileId.objectId.value != "" ==> t == fileId.objectId.value
  {
    if fileId.RefObject? && fileId.objectId.Some? && fileId.objectId.value != "" then fileId.objectId.value
    else RefText(fileId)
  }

  /** `handleViewPdf`: an error for a missing file, otherwise the viewer on the file's view URL. */
  function ViewPdf(base: string, fileId: Ref): (o: ViewPdfOutcome)
    ensures o.ShowError? <==> !RefTruthy(fileId)
    ensures o.ShowError? ==> o.message == NoPdfMessage
    ensures o.OpenViewer? ==> o.url == FileViewUrl(base, FileIdText(fileId))
  {
    if !RefTruthy(fileId) then ShowError(NoPdfMessage) else OpenViewer(FileViewUrl(base, FileIdText(fileId)))
  }

  /** A bare id and the populated object carrying it open the same URL. */
  lemma ViewPdfUnwraps(base: string, id: string, name: Option<string>)
    requires id != ""
    ensures ViewPdf(base, RefObject(Some(id), name)) == ViewPdf(base, RefId(id)) == OpenViewer(FileViewUrl(base, id))
  {
  }
}
