/**
 * The student's subject list: for each subject, how many of the student's assessments it
 * has and how many of those the student has Completed, and the rounded percentage shown
 * beside the subject.
 */
module StudentSubjects {
  import opened Wrappers
  import opened JsRuntime
  import opened ClientTypes

  /** The running counts for one subject while the assessments are scanned. */
  datatype Counts = Counts(name: Option<string>, total: nat, completed: nat)

  /** One subject's entry of `subjectCompletionData`. */
  datatype SubjectCompletion = SubjectCompletion(id: string, name: Option<string>, total: nat, completed: nat,
                                                 completionPercentage: int)

  /**
   * The key an assessment is counted under: its populated subject's `_id` (printed as
   * "undefined" when the object has none); None when `subjectId` is not a populated object.
   */
  function SubjectKey(a: ClientAssessment): (k: Option<string>)
    ensures k.Some? <==> a.subject.RefObject?
  {
    if a.subject.RefObject? then Some(a.subject.objectId.GetOr("undefined")) else None
  }

  /** The student's first roster entry for the assessment says Completed. */
  predicate CompletedBy(a: ClientAssessment, userId: string)
  {
    var r := StudentResult(a, userId);
    r.Some? && r.value.status == Some("Completed")
  }

  /** One iteration of the `forEach`. */
  function Step(m: map<string, Counts>, a: ClientAssessment, userId: string): map<string, Counts>
  {
    match SubjectKey(a)
    case None => m
    case Some(k) =>
      var c := if k in m then m[k] else Counts(a.subject.display, 0, 0);
      m[k := c.(total := c.total + 1, completed := c.completed + if CompletedBy(a, userId) then 1 else 0)]
  }

  /** The dictionary after scanning `data` in order. */
  function Tally(data: seq<ClientAssessment>, userId: string): (m: map<string, Counts>)
    ensures forall k :: k in m ==> exists a :: a in data && SubjectKey(a) == Some(k)
  {
    if data == [] then map[] else Step(Tally(data[..|data| - 1], userId), data[|data| - 1], userId)
  }

  /** How many assessments of `data` count for subject `k`. */
  function CountFor(data: seq<ClientAssessment>, k: string): nat
  {
    if data == [] then 0
    else CountFor(data[..|data| - 1], k) + if SubjectKey(data[|data| - 1]) == Some(k) then 1 else 0
  }

  /** How many of those the student has Completed. */
  function CompletedFor(data: seq<ClientAssessment>, k: string, userId: string): nat
  {
    if data == [] then 0
    else
      var last := data[|data| - 1];
      CompletedFor(data[..|data| - 1], k, userId) + if SubjectKey(last) == Some(k) && CompletedBy(last, userId) then 1 else 0
  }

  /**
   * A subject appears exactly when some assessment counts for it, its total is the number of
   * such assessments, and its completed count those the student has Completed.
   */
  lemma {:induction false} TallyCounts(data: seq<ClientAssessment>, userId: string, k: string)
    ensures k in Tally(data, userId) <==> CountFor(data, k) > 0
    ensures k in Tally(data, userId) ==>
      Tally(data, userId)[k].total == CountFor(data, k)
      && Tally(data, userId)[k].completed == CompletedFor(data, k, userId)
    ensures CompletedFor(data, k, userId) <= CountFor(data, k)
  {
    if data != [] {
      TallyCounts(data[..|data| - 1], userId, k);
    }
  }

  /** The percentage shown for some counts: `Math.round(completed / total * 100) || 0`. */
  function Percentage(total: nat, completed: nat): (p: int)
    requires completed <= total
    ensures 0 <= p <= 100
    ensures total > 0 && completed == total ==> p == 100
    ensures completed == 0 ==> p == 0
    ensures total > 0 ==> (p as real) - 0.5 <= 100.0 * (completed as real) / (total as real) < (p as real) + 0.5
  {
    if total == 0 then 0
    else
      RoundedPercentageRange(completed, total);
      RoundedPercentage(completed, total)
  }

  predicate WellFormed(m: map<string, Counts>)
  {
    forall k :: k in m ==> 1 <= m[k].total && m[k].completed <= m[k].total
  }

  lemma {:induction false} TallyWellFormed(data: seq<ClientAssessment>, userId: string)
    ensures WellFormed(Tally(data, userId))
  {
    if data != [] {
      TallyWellFormed(data[..|data| - 1], userId);
    }
  }

  function Completion(k: string, c: Counts): (s: SubjectCompletion)
    requires c.completed <= c.total
    ensures s.id == k && s.total == c.total && s.completed == c.completed && 0 <= s.completionPercentage <= 100
  {
    SubjectCompletion(k, c.name, c.total, c.completed, Percentage(c.total, c.completed))
  }

  /** The `Object.keys(...).forEach` pass: every subject gets its percentage. */
  function WithPercentages(m: map<string, Counts>): (r: map<string, SubjectCompletion>)
    requires WellFormed(m)
    ensures r.Keys == m.Keys
  {
    map k | k in m :: Completion(k, m[k])
  }

  /** The second `forEach`, over the keys: each subject's counts get their percentage. */
  method AttachPercentages(subjectData: map<string, Counts>) returns (result: map<string, SubjectCompletion>)
    requires WellFormed(subjectData)
    ensures result == WithPercentages(subjectData)
  {
    result := map[];
    var keys := subjectData.Keys;
    while keys != {}
      invariant keys <= subjectData.Keys
      invariant result.Keys == subjectData.Keys - keys
      invariant forall k :: k in result ==> result[k] == Completion(k, subjectData[k])
      decreases |keys|
    {
      var k :| k in keys;
      result := result[k := Completion(k, subjectData[k])];
      keys := keys - {k};
    }
  }

  class StudentSubjectsPage {
    var subjectCompletionData: map<string, SubjectCompletion>

    /** Every shown percentage lies in 0..100. */
    ghost predicate Valid()
      reads this
    {
      forall k :: k in subjectCompletionData ==> 0 <= subjectCompletionData[k].completionPercentage <= 100
    }

    constructor ()
      ensures Valid() && subjectCompletionData == map[]
    {
      subjectCompletionData := map[];
    }

    /**
     * `calculateSubjectCompletion`. `data` is None when the response is not an array, and
     * then nothing changes.
     */
    method CalculateSubjectCompletion(data: Option<seq<ClientAssessment>>, userId: string)
      requires Valid()
      modifies this
      ensures Valid()
      ensures data.None? ==> subjectCompletionData == old(subjectCompletionData)
      ensures data.Some? ==>
        WellFormed(Tally(data.value, userId))
        && subjectCompletionData == WithPercentages(Tally(data.value, userId))
    {
      if data.None? {
        return;
      }
      var assessments := data.value;
      var subjectData: map<string, Counts> := map[];
      var i := 0;
      while i < |assessments|
        invariant 0 <= i <= |assessments|
        invariant subjectData == Tally(assessments[..i], userId)
      {
        var a := assessments[i];
        ghost var before := subjectData;
        var key := SubjectKey(a);
        if key.Some? {
          var subjectId := key.value;
          if subjectId !in subjectData {
            subjectData := subjectData[subjectId := Counts(a.subject.display, 0, 0)];
          }
          var c := subjectData[subjectId];
          c := c.(total := c.total + 1);
          if CompletedBy(a, userId) {
            c := c.(completed := c.completed + 1);
          }
          subjectData := subjectData[subjectId := c];
        }
        assert subjectData == Step(before, a, userId);
        assert assessments[..i + 1][..i] == assessments[..i];
        i := i + 1;
      }
      assert assessments[..i] == assessments;
      TallyWellFormed(assessments, userId);
      subjectCompletionData := AttachPercentages(subjectData);
    }

    /** `getSubjectCompletionPercentage`: the subject's percentage, or 0 for a subject with no data. */
    function GetSubjectCompletionPercentage(subjectId: string): (p: int)
      reads this
      requires Valid()
      ensures 0 <= p <= 100
      ensures subjectId !in subjectCompletionData ==> p == 0
      ensures subjectId in subjectCompletionData ==> p == subjectCompletionData[subjectId].completionPercentage
    {
      if subjectId in subjectCompletionData then subjectCompletionData[subjectId].completionPercentage else 0
    }
  }
}
