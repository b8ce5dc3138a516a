/** Building the four messages for one candidate (index.js:37-89). */
module Sides {
  import opened Wrappers
  import opened Headers
  import opened Traffic

  /** The TypeErrors the map callback can throw, in the order it would meet them. */
  datatype Crash =
    | ResponseHeadersUndefined  // `response.headers.forEach` when the log response has no headers
    | PostDataUndefined         // `request.postData.text` when the log request has no postData
    | ContentUndefined          // `response.content.text` when the log response has no content

  /** The messages for candidate `c`, or the TypeError the callback throws while building them. */
  function Build(req: HarRequest, resp: HarResponse, c: Candidate): (r: Result<Pairing, Crash>)
    ensures r == Failure(ResponseHeadersUndefined) <==> c.response.headers.Some? && resp.headers.None?
    ensures r == Failure(PostDataUndefined) <==>
              !(c.response.headers.Some? && resp.headers.None?) && req.postData.None?
    ensures r == Failure(ContentUndefined) <==>
              !(c.response.headers.Some? && resp.headers.None?) && req.postData.Some? && resp.content.None?
    ensures r.Success? ==>
              var p := r.value;
              // headers: request side keyed by `key`, everything else by `name`
              && p.actualRequest.headers == NamedMap(req.headers)
              && p.expectedRequest.headers == KeyedMap(c.request.headers)
              && p.actualResponse.headers == NamedMap(resp.headers)
              // a candidate that declares response headers expects exactly the actual ones
              && (c.response.headers.Some? ==> p.expectedResponse.headers == p.actualResponse.headers)
              && (c.response.headers.None? ==> p.expectedResponse.headers == map[])
              // bodies
              && p.actualRequest.body == req.postData.value.text
              && p.expectedRequest.body == c.request.content
              && p.actualResponse.body == resp.content.value.text
              && p.expectedResponse.body == c.response.content
              // status codes appear on the response sides only
              && p.actualRequest.statusCode.None? && p.expectedRequest.statusCode.None?
              && p.actualResponse.statusCode == Some(resp.status)
              && p.expectedResponse.statusCode == c.response.statusCode
              // both expected sides carry the request's schema; the actual sides carry none
              && p.expectedRequest.bodySchema == c.request.bodySchema
              && p.expectedResponse.bodySchema == c.request.bodySchema
              && p.actualRequest.bodySchema.None? && p.actualResponse.bodySchema.None?
  {
    var expectedRequestHeaders := KeyedMap(c.request.headers);
    if c.response.headers.Some? && resp.headers.None? then Failure(ResponseHeadersUndefined)
    else
      var expectedResponseHeaders := if c.response.headers.Some? then NamedMap(resp.headers) else map[];
      var actualRequestHeaders := NamedMap(req.headers);
      var actualResponseHeaders := NamedMap(resp.headers);
      if req.postData.None? then Failure(PostDataUndefined)
      else if resp.content.None? then Failure(ContentUndefined)
      else
        var actualRequest := Side(actualRequestHeaders, req.postData.value.text, None, None);
        var expectedRequest := Side(expectedRequestHeaders, c.request.content, None, c.request.bodySchema);
        var actualResponse := Side(actualResponseHeaders, resp.content.value.text, Some(resp.status), None);
        var expectedResponse := Side(expectedResponseHeaders, c.response.content, c.response.statusCode, c.request.bodySchema);
        Success(Pairing(actualRequest, expectedRequest, actualResponse, expectedResponse))
  }
}
