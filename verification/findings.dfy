/** Concrete inputs on which the program departs from its evident intent, with what the
    corrected model does on the same inputs. */
module Findings {
  import opened Wrappers
  import opened Headers
  import opened Traffic
  import Sides
  import opened Gavel
  import opened Pipeline
  import Corrected

  const GetUnknown: HarRequest := HarRequest("/unknown", "GET", Some([]), Some(Text(None)))
  const LogResponse: HarResponse := HarResponse(404, Some([Header("X-Actual", "2")]), Some(Text(Some("{}"))))

  /** An entry no description entry matches is reported "Not valid!", never "Not found!". */
  lemma NotFoundUnreachable(gavel: Oracle)
    ensures Pipeline.ProcessEntry(gavel, GetUnknown, LogResponse, []) == Reported(Fail("/unknown (GET): Not valid!"))
    ensures Corrected.ProcessEntry(gavel, GetUnknown, LogResponse, []) == Fail("/unknown (GET): Not found!")
  {
    assert Message("/unknown", "GET", NotValid) == "/unknown (GET): Not valid!";
    assert Message("/unknown", "GET", NotFound) == "/unknown (GET): Not found!";
  }

  /** A candidate declaring header `X-Expected` is expected to send the log's `X-Actual` instead. */
  lemma ResponseHeadersFromLog()
    ensures var c := Candidate(ExpectedRequest(None, None, None),
                               ExpectedResponse(Some([Header("X-Expected", "1")]), None, Some(200), None));
            && Sides.Build(GetUnknown, LogResponse, c).Success?
            && Sides.Build(GetUnknown, LogResponse, c).value.expectedResponse.headers == map["X-Actual" := "2"]
            && Corrected.Build(GetUnknown, LogResponse, c).expectedResponse.headers == map["X-Expected" := "1"]
  {
  }

  /** The expected response carries the request's body schema, not the response's. */
  lemma ResponseSchemaFromRequest()
    ensures var c := Candidate(ExpectedRequest(None, None, Some("request-schema")),
                               ExpectedResponse(None, None, Some(200), Some("response-schema")));
            && Sides.Build(GetUnknown, LogResponse, c).Success?
            && Sides.Build(GetUnknown, LogResponse, c).value.expectedResponse.bodySchema == Some("request-schema")
            && Corrected.Build(GetUnknown, LogResponse, c).expectedResponse.bodySchema == Some("response-schema")
  {
  }

  /** A HAR request without `postData` (a plain GET) throws as soon as a candidate exists. */
  lemma GetWithoutPostData(gavel: Oracle)
    ensures var req := HarRequest("/widgets", "GET", Some([]), None);
            var c := Candidate(ExpectedRequest(None, None, None), ExpectedResponse(None, None, Some(200), None));
            var fixed := Corrected.ProcessEntry(gavel, req, LogResponse, [c]);
            && Pipeline.ProcessEntry(gavel, req, LogResponse, [c]) == Crashed(Sides.PostDataUndefined)
            && (fixed == Pass(Message("/widgets", "GET", Valid)) || fixed == Fail(Message("/widgets", "GET", NotValid)))
  {
  }

  /** An oracle that always reports an error: the program emits no record, the corrected model a failure. */
  lemma OracleErrorUnreported()
    ensures var gavel: Oracle := (a, e, k) => Callback(Some(OracleError("internal")), Bool(true));
            var c := Candidate(ExpectedRequest(None, None, None), ExpectedResponse(None, None, Some(200), None));
            && Pipeline.ProcessEntry(gavel, GetUnknown, LogResponse, [c]) == Unreported
            && Corrected.ProcessEntry(gavel, GetUnknown, LogResponse, [c]) == Fail(Message("/unknown", "GET", NotValid))
  {
  }
}
