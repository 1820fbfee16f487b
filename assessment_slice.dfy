/**
 * The `assessment` Redux slice: the list of assessments a page shows, the one being viewed,
 * and the request flags. Each reducer is a method that assigns fields of the draft state.
 */
module AssessmentSlice {
  import opened Wrappers
  import opened ClientTypes
  import opened Sequences

  datatype SliceStatus = Idle | Loading | Succeeded | Added | Updated | Deleted | Failed | Error

  // ---------------------------------------------------------------- list operations

  function AssessmentId(a: ClientAssessment): string
  {
    a.id
  }

  /** `findIndex(a => a._id === id)`. */
  function FindIndexById(list: seq<ClientAssessment>, id: string): int
  {
    FirstIndex(list, AssessmentId, id)
  }

  /** The list with its first item carrying `item`'s id replaced by `item`. */
  function ReplaceFirstById(list: seq<ClientAssessment>, item: ClientAssessment): (r: seq<ClientAssessment>)
    ensures |r| == |list|
    ensures forall x :: x in r ==> x in list || x == item
    ensures forall i :: 0 <= i < |r| ==> r[i].id == list[i].id
  {
    if list == [] then []
    else if list[0].id == item.id then [item] + list[1..]
    else [list[0]] + ReplaceFirstById(list[1..], item)
  }

  /** Replacing at the index `findIndex` reports is replacing the first match; no match, no change. */
  lemma {:induction false} ReplaceAtFoundIndex(list: seq<ClientAssessment>, item: ClientAssessment)
    ensures var k := FindIndexById(list, item.id);
      && (k == -1 ==> ReplaceFirstById(list, item) == list)
      && (k >= 0 ==> ReplaceFirstById(list, item) == list[k := item])
  {
    if list != [] && list[0].id != item.id {
      ReplaceAtFoundIndex(list[1..], item);
      var k := FindIndexById(list[1..], item.id);
      if k >= 0 {
        assert [list[0]] + list[1..][k := item] == list[k + 1 := item];
      } else {
        assert [list[0]] + list[1..] == list;
      }
    }
  }

  /** Only the first matching item changes; every other position keeps its item. */
  lemma ReplaceFirstByIdFrame(list: seq<ClientAssessment>, item: ClientAssessment, j: nat)
    requires j < |list| && j != FindIndexById(list, item.id)
    ensures ReplaceFirstById(list, item)[j] == list[j]
  {
    ReplaceAtFoundIndex(list, item);
  }

  /** `filter(a => a._id !== id)`. */
  function RemoveById(list: seq<ClientAssessment>, id: string): (r: seq<ClientAssessment>)
    ensures |r| <= |list|
    ensures forall x :: x in r <==> x in list && x.id != id
  {
    if list == [] then []
    else (if list[0].id != id then [list[0]] else []) + RemoveById(list[1..], id)
  }

  /** The survivors are the list's other items, in their order. */
  lemma {:induction false} RemoveByIdKeepsOrder(list: seq<ClientAssessment>, id: string)
    ensures IsSubsequence(RemoveById(list, id), list)
  {
    if list != [] {
      RemoveByIdKeepsOrder(list[1..], id);
      var rest := RemoveById(list[1..], id);
      assert list == [list[0]] + list[1..];
      if list[0].id != id {
        assert RemoveById(list, id) == [list[0]] + rest;
      } else {
        assert RemoveById(list, id) == rest;
        SubsequenceSkip(rest, list[1..], list[0]);
      }
    }
  }

  /** Deleting twice is deleting once. */
  lemma {:induction false} RemoveByIdIdempotent(list: seq<ClientAssessment>, id: string)
    ensures RemoveById(RemoveById(list, id), id) == RemoveById(list, id)
  {
    if list != [] {
      RemoveByIdIdempotent(list[1..], id);
      var rest := RemoveById(list[1..], id);
      if list[0].id != id {
        var r := [list[0]] + rest;
        assert RemoveById(list, id) == r;
        assert r[0] == list[0] && r[1..] == rest;
        assert RemoveById(r, id) == [list[0]] + RemoveById(rest, id);
      } else {
        assert RemoveById(list, id) == rest;
      }
    }
  }

  /** Deleting an id no item carries changes nothing. */
  lemma {:induction false} RemoveAbsentId(list: seq<ClientAssessment>, id: string)
    requires forall x :: x in list ==> x.id != id
    ensures RemoveById(list, id) == list
  {
    if list != [] {
      assert list[0] in list;
      assert forall x :: x in list[1..] ==> x in list;
      RemoveAbsentId(list[1..], id);
      assert [list[0]] + list[1..] == list;
    }
  }

  // ---------------------------------------------------------------- the slice

  class AssessmentState {
    var assessments: seq<ClientAssessment>
    var currentAssessment: Option<ClientAssessment>
    var loading: bool
    var error: Option<string>
    var response: Option<string>
    var status: SliceStatus

    /** `initialState`. */
    constructor ()
      ensures assessments == [] && currentAssessment.None? && !loading
      ensures error.None? && response.None? && status == Idle
    {
      assessments, currentAssessment, loading := [], None, false;
      error, response, status := None, None, Idle;
    }

    method AssessmentRequest()
      modifies this
      ensures status == Loading && loading
      ensures assessments == old(assessments) && currentAssessment == old(currentAssessment)
      ensures error == old(error) && response == old(response)
    {
      status, loading := Loading, true;
    }

    /** `underControl` leaves `loading` as it was. */
    method UnderControl()
      modifies this
      ensures status == Idle && response.None?
      ensures assessments == old(assessments) && currentAssessment == old(currentAssessment)
      ensures loading == old(loading) && error == old(error)
    {
      status, response := Idle, None;
    }

    method AssessmentSuccess(payload: seq<ClientAssessment>)
      modifies this
      ensures status == Succeeded && assessments == payload
      ensures !loading && error.None? && response.None?
      ensures currentAssessment == old(currentAssessment)
    {
      status, assessments := Succeeded, payload;
      loading, error, response := false, None, None;
    }

    method SingleAssessmentSuccess(payload: ClientAssessment)
      modifies this
      ensures status == Succeeded && currentAssessment == Some(payload)
      ensures !loading && error.None? && response.None?
      ensures assessments == old(assessments)
    {
      status, currentAssessment := Succeeded, Some(payload);
      loading, error, response := false, None, None;
    }

    /** `push`: the new item goes last, the earlier ones stay where they were. */
    method AddAssessmentSuccess(payload: ClientAssessment)
      modifies this
      ensures status == Added && assessments == old(assessments) + [payload]
      ensures |assessments| == |old(assessments)| + 1 && assessments[..|old(assessments)|] == old(assessments)
      ensures !loading && error.None? && response.None?
      ensures currentAssessment == old(currentAssessment)
    {
      status := Added;
      assessments := assessments + [payload];
      loading, error, response := false, None, None;
    }

    /** `findIndex`, then assignment at that index when there is one. */
    method UpdateAssessmentSuccess(payload: ClientAssessment)
      modifies this
      ensures status == Updated && assessments == ReplaceFirstById(old(assessments), payload)
      ensures |assessments| == |old(assessments)|
      ensures (forall x :: x in old(assessments) ==> x.id != payload.id) ==> assessments == old(assessments)
      ensures !loading && error.None? && response.None?
      ensures currentAssessment == old(currentAssessment)
    {
      status := Updated;
      ReplaceAtFoundIndex(assessments, payload);
      var index := FindIndexById(assessments, payload.id);
      if index != -1 {
        assessments := assessments[index := payload];
      }
      loading, error, response := false, None, None;
    }

    /** `filter` out the deleted id; `response` is left as it was. */
    method DeleteAssessmentSuccess(id: string)
      modifies this
      ensures status == Deleted && assessments == RemoveById(old(assessments), id)
      ensures IsSubsequence(assessments, old(assessments))
      ensures !loading && error.None?
      ensures response == old(response) && currentAssessment == old(currentAssessment)
    {
      status := Deleted;
      RemoveByIdKeepsOrder(assessments, id);
      assessments := RemoveById(assessments, id);
      loading, error := false, None;
    }

    method AssessmentFailed(payload: string)
      modifies this
      ensures status == Failed && response == Some(payload) && !loading
      ensures error == old(error) && assessments == old(assessments) && currentAssessment == old(currentAssessment)
    {
      status, response, loading := Failed, Some(payload), false;
    }

    method AssessmentError(payload: string)
      modifies this
      ensures status == Error && error == Some(payload) && !loading
      ensures response == old(response) && assessments == old(assessments) && currentAssessment == old(currentAssessment)
    {
      status, error, loading := Error, Some(payload), false;
    }

    method ClearCurrentAssessment()
      modifies this
      ensures currentAssessment.None?
      ensures assessments == old(assessments) && loading == old(loading) && error == old(error)
      ensures response == old(response) && status == old(status)
    {
      currentAssessment := None;
    }
  }
}
