/**
 * The `teacher` Redux slice: the teacher list, one teacher's details and the request flags.
 * Payloads are whatever the thunks dispatch, so they are kept as untyped values.
 */
module TeacherSlice {
  import opened ClientTypes

  const StatusUpdatedMessage: string := "Status updated successfully"

  class TeacherState {
    var teachersList: JsValue
    var teacherDetails: JsValue
    var loading: bool
    var error: JsValue
    var response: JsValue

    /** `initialState`: both lists empty, no error, no response. */
    constructor ()
      ensures teachersList == JsArray([]) && teacherDetails == JsArray([])
      ensures !loading && error == JsNull && response == JsNull
    {
      teachersList, teacherDetails := JsArray([]), JsArray([]);
      loading, error, response := false, JsNull, JsNull;
    }

    method GetRequest()
      modifies this
      ensures loading
      ensures teachersList == old(teachersList) && teacherDetails == old(teacherDetails)
      ensures error == old(error) && response == old(response)
    {
      loading := true;
    }

    method DoneSuccess(payload: JsValue)
      modifies this
      ensures teacherDetails == payload && !loading && error == JsNull && response == JsNull
      ensures teachersList == old(teachersList)
    {
      teacherDetails := payload;
      loading, error, response := false, JsNull, JsNull;
    }

    method GetSuccess(payload: JsValue)
      modifies this
      ensures teachersList == payload && !loading && error == JsNull && response == JsNull
      ensures teacherDetails == old(teacherDetails)
    {
      teachersList := payload;
      loading, error, response := false, JsNull, JsNull;
    }

    method GetFailed(payload: JsValue)
      modifies this
      ensures response == payload && !loading && error == JsNull
      ensures teachersList == old(teachersList) && teacherDetails == old(teacherDetails)
    {
      response := payload;
      loading, error := false, JsNull;
    }

    /** `getError` keeps the last response. */
    method GetError(payload: JsValue)
      modifies this
      ensures error == payload && !loading
      ensures response == old(response)
      ensures teachersList == old(teachersList) && teacherDetails == old(teacherDetails)
    {
      loading, error := false, payload;
    }

    method PostDone()
      modifies this
      ensures !loading && error == JsNull && response == JsNull
      ensures teachersList == old(teachersList) && teacherDetails == old(teacherDetails)
    {
      loading, error, response := false, JsNull, JsNull;
    }

    method UpdateStatusRequest()
      modifies this
      ensures loading && error == JsNull
      ensures response == old(response)
      ensures teachersList == old(teachersList) && teacherDetails == old(teacherDetails)
    {
      loading, error := true, JsNull;
    }

    method UpdateStatusSuccess()
      modifies this
      ensures !loading && error == JsNull && response == JsStr(StatusUpdatedMessage)
      ensures teachersList == old(teachersList) && teacherDetails == old(teacherDetails)
    {
      loading, error, response := false, JsNull, JsStr(StatusUpdatedMessage);
    }

    /** `updateStatusFailed` keeps the last response. */
    method UpdateStatusFailed(payload: JsValue)
      modifies this
      ensures !loading && error == payload
      ensures response == old(response)
      ensures teachersList == old(teachersList) && teacherDetails == old(teacherDetails)
    {
      loading, error := false, payload;
    }
  }
}
