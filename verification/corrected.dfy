/** The evidently intended behaviour where the program departs from it (README, "Findings"):
    each message built from the candidate's own fields, no TypeError for a HAR request without
    `postData` or a response without `content`, "Not found!" for an entry no description entry
    matches, and an oracle error counted against its candidate instead of escaping. */
module Corrected {
  import opened Wrappers
  import opened Headers
  import opened Traffic
  import Sides
  import opened Gavel
  import opened Pipeline

  /** The text of an optional HAR `postData` or `content` object (`obj && obj.text`). */
  function TextOf(t: Option<Text>): Option<string> {
    if t.Some? then t.value.text else None
  }

  /** The four messages, with the expected response built from the candidate's response. */
  function Build(req: HarRequest, resp: HarResponse, c: Candidate): (p: Pairing)
    ensures p.expectedResponse.headers == NamedMap(c.response.headers)
    ensures p.expectedResponse.bodySchema == c.response.bodySchema
    ensures p.actualRequest.body == (if req.postData.Some? then req.postData.value.text else None)
    ensures p.actualResponse.body == (if resp.content.Some? then resp.content.value.text else None)
    // where the program builds its messages, only the expected response differs
    ensures Sides.Build(req, resp, c).Success? ==>
              && p.actualRequest == Sides.Build(req, resp, c).value.actualRequest
              && p.expectedRequest == Sides.Build(req, resp, c).value.expectedRequest
              && p.actualResponse == Sides.Build(req, resp, c).value.actualResponse
              && p.expectedResponse.body == Sides.Build(req, resp, c).value.expectedResponse.body
              && p.expectedResponse.statusCode == Sides.Build(req, resp, c).value.expectedResponse.statusCode
    // and not at all when the candidate declares no response headers and one schema for both
    ensures Sides.Build(req, resp, c).Success? && c.response.headers.None? && c.response.bodySchema == c.request.bodySchema ==>
              Sides.Build(req, resp, c) == Success(p)
  {
    Pairing(
      Side(NamedMap(req.headers), TextOf(req.postData), None, None),
      Side(KeyedMap(c.request.headers), c.request.content, None, c.request.bodySchema),
      Side(NamedMap(resp.headers), TextOf(resp.content), Some(resp.status), None),
      Side(NamedMap(c.response.headers), c.response.content, c.response.statusCode, c.response.bodySchema))
  }

  /** A candidate's settled results; one whose validation reports an error yields no values and
      so cannot be the valid pair. */
  function Settled(gavel: Oracle, p: Pairing): (item: seq<Value>)
    ensures IsValidPair(item) <==> Accepts(gavel, p)
  {
    match ValidatePair(gavel, p)
    case Success(values) => values
    case Failure(_) => []
  }

  /** One entry, reported exactly once whatever the oracle does. */
  function ProcessEntry(gavel: Oracle, req: HarRequest, resp: HarResponse, cands: seq<Candidate>): (r: Record)
    ensures |cands| == 0 ==> r == Fail(Message(req.url, req.httpMethod, NotFound))
    ensures |cands| > 0 ==> (r.Pass? <==> exists j :: 0 <= j < |cands| && Accepts(gavel, Build(req, resp, cands[j])))
    ensures |cands| > 0 ==>
              r == Pass(Message(req.url, req.httpMethod, Valid)) || r == Fail(Message(req.url, req.httpMethod, NotValid))
  {
    if |cands| == 0 then Fail(Message(req.url, req.httpMethod, NotFound))
    else
      var results := seq(|cands|, j requires 0 <= j < |cands| => Settled(gavel, Build(req, resp, cands[j])));
      assert forall j :: 0 <= j < |cands| ==> (IsValidPair(results[j]) <==> Accepts(gavel, Build(req, resp, cands[j])));
      Report(req.url, req.httpMethod, results)
  }

  /** Off the paths the corrections touch, the corrected entry gives the program's record. */
  lemma AgreesOffQuirks(gavel: Oracle, req: HarRequest, resp: HarResponse, cands: seq<Candidate>)
    requires |cands| > 0 && req.postData.Some? && resp.content.Some?
    requires forall j :: 0 <= j < |cands| ==>
               cands[j].response.headers.None? && cands[j].response.bodySchema == cands[j].request.bodySchema
    requires forall j :: 0 <= j < |cands| ==> !Errs(gavel, Build(req, resp, cands[j]))
    ensures Pipeline.ProcessEntry(gavel, req, resp, cands) == Reported(ProcessEntry(gavel, req, resp, cands))
  {
  }
}
