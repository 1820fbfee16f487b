/**
 * The bulk attendance sheet a teacher fills in for one class and subject: one row per
 * student, all Present to begin with, a running present/absent summary, a search box over
 * names and roll numbers, and one attendance update per row on submit.
 */
module BulkAttendance {
  import opened JsRuntime
  import opened Sequences
  import opened ClientTypes

  datatype AttendanceStatus = Present | Absent


  datatype AttendanceEntry = AttendanceEntry(studentId: string, name: string, rollNum: string, status: AttendanceStatus)

  datatype Summary = Summary(present: nat, absent: nat, total: nat)

  /** The update `updateStudentFields` sends for one row. */
  datatype AttendanceUpdate = AttendanceUpdate(studentId: string, subName: string, status: AttendanceStatus, date: string)

  // ---------------------------------------------------------------- counting

  function CountPresent(data: seq<AttendanceEntry>): (n: nat)
    ensures n <= |data|
  {
    if data == [] then 0 else (if data[0].status == Present then 1 else 0) + CountPresent(data[1..])
  }

  /** The summary the sheet shows for some rows: `absent` is what is not present. */
  function SummaryOf(data: seq<AttendanceEntry>): (s: Summary)
    ensures s.total == |data| && s.present + s.absent == s.total
  {
    var p := CountPresent(data);
    Summary(p, |data| - p, |data|)
  }

  /** Rows that all have the same status are all present or all absent. */
  lemma {:induction false} CountUniform(data: seq<AttendanceEntry>, status: AttendanceStatus)
    requires forall i :: 0 <= i < |data| ==> data[i].status == status
    ensures CountPresent(data) == if status == Present then |data| else 0
  {
    if data != [] {
      CountUniform(data[1..], status);
    }
  }

  // ---------------------------------------------------------------- row edits

  /** The rows built from the class list, all Present. */
  function InitialEntries(students: seq<ClassStudent>): (data: seq<AttendanceEntry>)
    ensures |data| == |students|
    ensures forall i :: 0 <= i < |data| ==>
      data[i] == AttendanceEntry(students[i].id, students[i].name, students[i].rollNum, Present)
  {
    seq(|students|, i requires 0 <= i < |students| =>
      AttendanceEntry(students[i].id, students[i].name, students[i].rollNum, Present))
  }

  /** `handleStatusChange`'s map: rows for the student get the new status. */
  function WithStatus(data: seq<AttendanceEntry>, studentId: string, status: AttendanceStatus)
    : (r: seq<AttendanceEntry>)
    ensures |r| == |data|
    ensures forall i :: 0 <= i < |data| && data[i].studentId != studentId ==> r[i] == data[i]
    ensures forall i :: 0 <= i < |data| && data[i].studentId == studentId ==> r[i] == data[i].(status := status)
  {
    seq(|data|, i requires 0 <= i < |data| =>
      if data[i].studentId == studentId then data[i].(status := status) else data[i])
  }

  /** `handleSetAllStatus`'s map. */
  function AllWithStatus(data: seq<AttendanceEntry>, status: AttendanceStatus): (r: seq<AttendanceEntry>)
    ensures |r| == |data|
    ensures forall i :: 0 <= i < |data| ==> r[i] == data[i].(status := status)
  {
    seq(|data|, i requires 0 <= i < |data| => data[i].(status := status))
  }

  /** Marking one student changes the present count by at most the rows that student has. */
  lemma {:induction false} WithStatusCount(data: seq<AttendanceEntry>, studentId: string, status: AttendanceStatus)
    requires forall i, j :: 0 <= i < j < |data| ==> data[i].studentId != data[j].studentId
    ensures var after := CountPresent(WithStatus(data, studentId, status));
      after - CountPresent(data) in {-1, 0, 1}
      && (status == Present ==> after >= CountPresent(data))
      && (status == Absent ==> after <= CountPresent(data))
  {
    if data != [] {
      var r := WithStatus(data, studentId, status);
      assert r[1..] == WithStatus(data[1..], studentId, status);
      if data[0].studentId == studentId {
        assert forall i :: 0 <= i < |data[1..]| ==> data[1..][i].studentId != studentId;
        assert WithStatus(data[1..], studentId, status) == data[1..];
      } else {
        WithStatusCount(data[1..], studentId, status);
      }
    }
  }

  // ---------------------------------------------------------------- search

  /** The search box's test for one row. */
  predicate Matches(e: AttendanceEntry, query: string)
  {
    Includes(ToLower(e.name), ToLower(query)) || Includes(e.rollNum, query)
  }

  /** `filteredAttendanceData`. */
  function Filtered(data: seq<AttendanceEntry>, query: string): (r: seq<AttendanceEntry>)
    ensures |r| <= |data|
    ensures forall e :: e in r <==> e in data && Matches(e, query)
  {
    if data == [] then []
    else (if Matches(data[0], query) then [data[0]] else []) + Filtered(data[1..], query)
  }

  /** The rows shown keep the sheet's order. */
  lemma {:induction false} FilteredKeepsOrder(data: seq<AttendanceEntry>, query: string)
    ensures IsSubsequence(Filtered(data, query), data)
  {
    if data != [] {
      FilteredKeepsOrder(data[1..], query);
      var rest := Filtered(data[1..], query);
      assert data == [data[0]] + data[1..];
      if Matches(data[0], query) {
        assert Filtered(data, query) == [data[0]] + rest;
      } else {
        assert Filtered(data, query) == rest;
        SubsequenceSkip(rest, data[1..], data[0]);
      }
    }
  }

  /** An empty search shows every row. */
  lemma {:induction false} FilteredEmptyQuery(data: seq<AttendanceEntry>)
    ensures Filtered(data, "") == data
  {
    if data != [] {
      assert ToLower("") == "";
      IncludesEmpty(ToLower(data[0].name));
      FilteredEmptyQuery(data[1..]);
      assert [data[0]] + data[1..] == data;
    }
  }

  // ---------------------------------------------------------------- submit

  /** One update per row, in row order, each with that row's status. */
  function Updates(data: seq<AttendanceEntry>, subjectId: string, date: string): (u: seq<AttendanceUpdate>)
    ensures |u| == |data|
    ensures forall i :: 0 <= i < |u| ==>
      u[i].studentId == data[i].studentId && u[i].status == data[i].status
      && u[i].subName == subjectId && u[i].date == date
  {
    seq(|data|, i requires 0 <= i < |data| => AttendanceUpdate(data[i].studentId, subjectId, data[i].status, date))
  }

  /** The submit button's `disabled`: an enabled button always sends at least one update. */
  predicate SubmitDisabled(submitting: bool, data: seq<AttendanceEntry>)
    ensures !SubmitDisabled(submitting, data) ==>
      !submitting && forall subjectId, date :: Updates(data, subjectId, date) != []
  {
    submitting || |data| == 0
  }

  class BulkAttendanceSheet {
    var attendanceData: seq<AttendanceEntry>
    var summary: Summary

    /** The summary always describes the rows. */
    ghost predicate Valid()
      reads this
    {
      summary == SummaryOf(attendanceData)
    }

    constructor ()
      ensures Valid() && attendanceData == [] && summary == Summary(0, 0, 0)
    {
      attendanceData, summary := [], Summary(0, 0, 0);
    }

    /** The effect that runs when the class list arrives; an empty list changes nothing. */
    method Initialize(students: seq<ClassStudent>)
      requires Valid()
      modifies this
      ensures Valid()
      ensures |students| == 0 ==> attendanceData == old(attendanceData) && summary == old(summary)
      ensures |students| > 0 ==>
        attendanceData == InitialEntries(students) && summary == Summary(|students|, 0, |students|)
    {
      if |students| > 0 {
        var initialData := InitialEntries(students);
        CountUniform(initialData, Present);
        attendanceData := initialData;
        summary := Summary(|initialData|, 0, |initialData|);
      }
    }

    method HandleStatusChange(studentId: string, status: AttendanceStatus)
      requires Valid()
      modifies this
      ensures Valid()
      ensures attendanceData == WithStatus(old(attendanceData), studentId, status)
    {
      var updatedData := WithStatus(attendanceData, studentId, status);
      attendanceData := updatedData;
      var present := CountPresent(updatedData);
      summary := Summary(present, |updatedData| - present, |updatedData|);
    }

    method HandleSetAllStatus(status: AttendanceStatus)
      requires Valid()
      modifies this
      ensures Valid()
      ensures attendanceData == AllWithStatus(old(attendanceData), status)
      ensures summary == Summary(if status == Present then |attendanceData| else 0,
                                 if status == Absent then |attendanceData| else 0,
                                 |attendanceData|)
    {
      var updatedData := AllWithStatus(attendanceData, status);
      CountUniform(updatedData, status);
      attendanceData := updatedData;
      summary := Summary(if status == Present then |updatedData| else 0,
                         if status == Absent then |updatedData| else 0,
                         |updatedData|);
    }

    function FilteredAttendanceData(query: string): (r: seq<AttendanceEntry>)
      reads this
      ensures forall e :: e in r <==> e in attendanceData && Matches(e, query)
    {
      Filtered(attendanceData, query)
    }
  }
}
