/**
 * The shared results table: one row per roster entry with a marks chip coloured by the
 * score band and a status chip, under a chip counting the students.
 */
module StudentResultsTable {
  import opened Wrappers
  import opened ClientTypes

  /**
   * `getScoreColor(score, total)`: a falsy score is "warning"; otherwise the score as a
   * percentage of the total picks "success" from 75, "warning" from 60 and "error" below.
   * A zero total divides to plus or minus infinity, so the sign of the score decides.
   */
  function ScoreColor(score: Marks, total: real): (c: ChipColor)
    ensures c == SuccessChip || c == WarningChip || c == ErrorChip
    ensures !MarksTruthy(score) ==> c == WarningChip
    ensures MarksTruthy(score) && total == 0.0 ==> (c == SuccessChip <==> score.value > 0.0)
    ensures MarksTruthy(score) && total == 0.0 ==> (c == ErrorChip <==> score.value < 0.0)
    ensures MarksTruthy(score) && total != 0.0 ==>
      var pct := score.value / total * 100.0;
      (c == SuccessChip <==> pct >= 75.0) && (c == ErrorChip <==> pct < 60.0)
  {
    if !MarksTruthy(score) then WarningChip
    else if total == 0.0 then (if score.value > 0.0 then SuccessChip else ErrorChip)
    else
      var pct := score.value / total * 100.0;
      if pct >= 75.0 then SuccessChip
      else if pct >= 60.0 then WarningChip
      else ErrorChip
  }

  /**
   * For a positive total the bands are the cross-multiplied thresholds: success from
   * three quarters of the total, warning from three fifths, error below.
   */
  lemma ScoreBands(v: real, total: real)
    requires v != 0.0 && total > 0.0
    ensures ScoreColor(MarksNum(v), total) == SuccessChip <==> 4.0 * v >= 3.0 * total
    ensures ScoreColor(MarksNum(v), total) == WarningChip <==> 5.0 * v >= 3.0 * total && 4.0 * v < 3.0 * total
    ensures ScoreColor(MarksNum(v), total) == ErrorChip <==> 5.0 * v < 3.0 * total
  {
    PercentAtLeast(v, total, 75.0);
    PercentAtLeast(v, total, 60.0);
  }

  /** `v / total * 100 >= bound` without the division. */
  lemma PercentAtLeast(v: real, total: real, bound: real)
    requires total > 0.0
    ensures v / total * 100.0 >= bound <==> 100.0 * v >= bound * total
  {
    var pct := v / total * 100.0;
    assert pct * total == 100.0 * v;
    if pct >= bound {
      assert (pct - bound) * total >= 0.0;
    } else {
      assert (bound - pct) * total > 0.0;
    }
  }

  /** A higher score never gets a worse colour, for a positive total and truthy scores. */
  lemma ScoreColorMonotone(v: real, w: real, total: real)
    requires 0.0 < v <= w && total > 0.0
    ensures ScoreColor(MarksNum(v), total) == SuccessChip ==> ScoreColor(MarksNum(w), total) == SuccessChip
    ensures ScoreColor(MarksNum(w), total) == ErrorChip ==> ScoreColor(MarksNum(v), total) == ErrorChip
  {
    ScoreBands(v, total);
    ScoreBands(w, total);
  }

  /** The marks chip's label: "Pending" only for a stored null, otherwise `${marks}/${total}`. */
  datatype MarksLabel = PendingLabel | RatioLabel(marks: Marks, total: real)

  function MarksLabelOf(marks: Marks, total: real): (l: MarksLabel)
    ensures l.PendingLabel? <==> marks.MarksNull?
    ensures l.RatioLabel? ==> l.marks == marks && l.total == total
  {
    if marks.MarksNull? then PendingLabel else RatioLabel(marks, total)
  }

  /** An absent mark is not `!== null`, so it is printed as the text "undefined" over the total. */
  lemma UndefinedMarksPrinted(total: real)
    ensures MarksLabelOf(MarksUndefined, total) == RatioLabel(MarksUndefined, total)
    ensures ScoreColor(MarksUndefined, total) == WarningChip
  {
  }

  /** The status chip is "success" exactly for "Completed", "warning" otherwise. */
  function StatusChipColor(status: Option<string>): (c: ChipColor)
    ensures c == SuccessChip <==> status == Some("Completed")
    ensures c != SuccessChip ==> c == WarningChip
  {
    if status == Some("Completed") then SuccessChip else WarningChip
  }

  /** `${students?.length || 0} students`. */
  function StudentCount(students: Option<seq<ClientResult>>): (n: nat)
    ensures students.None? ==> n == 0
    ensures students.Some? ==> n == |students.value|
  {
    if students.None? then 0 else |students.value|
  }

  datatype ResultRow = ResultRow(
    name: string,
    marksLabel: MarksLabel,
    marksColor: ChipColor,
    statusLabel: Option<string>,
    statusColor: ChipColor)

  /** One table row: the entry's name and status as given, with the chips their colours choose. */
  function RowOf(s: ClientResult, total: real): (row: ResultRow)
    ensures row.name == s.name && row.statusLabel == s.status
    ensures row.marksLabel.PendingLabel? <==> s.marks.MarksNull?
    ensures row.statusColor == SuccessChip <==> s.status == Some("Completed")
    ensures row.marksColor == ScoreColor(s.marks, total)
  {
    ResultRow(s.name, MarksLabelOf(s.marks, total), ScoreColor(s.marks, total), s.status, StatusChipColor(s.status))
  }

  function RowsOf(students: seq<ClientResult>, total: real): (rows: seq<ResultRow>)
    ensures |rows| == |students|
    ensures forall i :: 0 <= i < |students| ==> rows[i] == RowOf(students[i], total)
  {
    if students == [] then [] else [RowOf(students[0], total)] + RowsOf(students[1..], total)
  }

  /**
   * The table body: None stands for "No student results available", shown when the roster
   * is missing or empty; otherwise one row per entry in roster order.
   */
  function Rows(students: Option<seq<ClientResult>>, total: real): (rows: Option<seq<ResultRow>>)
    ensures rows.None? <==> StudentCount(students) == 0
    ensures rows.Some? ==> |rows.value| == StudentCount(students)
    ensures rows.Some? ==> forall i :: 0 <= i < |rows.value| ==>
      rows.value[i].name == students.value[i].name
      && (rows.value[i].marksLabel.PendingLabel? <==> students.value[i].marks.MarksNull?)
      && (rows.value[i].statusColor == SuccessChip <==> students.value[i].status == Some("Completed"))
  {
    if students.None? || students.value == [] then None else Some(RowsOf(students.value, total))
  }
}
