/** The records the core works on: HAR entries on the actual side, description entries
    ("candidates") on the expected side, and the four messages handed to the validator. */
module Traffic {
  import opened Wrappers
  import opened Headers

  /** A HAR `postData` or `content` object; only its `text` is read, and it may be absent. */
  datatype Text = Text(text: Option<string>)

  /** `request` of a HAR entry. `headers` and `postData` may be missing from the object. */
  datatype HarRequest = HarRequest(url: string, httpMethod: string, headers: Option<seq<Header>>, postData: Option<Text>)

  /** `response` of a HAR entry. `headers` and `content` may be missing from the object. */
  datatype HarResponse = HarResponse(status: int, headers: Option<seq<Header>>, content: Option<Text>)

  /** One extracted log entry. */
  datatype Entry = Entry(request: HarRequest, response: HarResponse)

  /** The request half of a description entry. Content and schema are opaque JSON. */
  datatype ExpectedRequest = ExpectedRequest(headers: Option<seq<KeyedHeader>>, content: Option<string>, bodySchema: Option<string>)

  /** The response half of a description entry. */
  datatype ExpectedResponse = ExpectedResponse(
    headers: Option<seq<Header>>,
    content: Option<string>,
    statusCode: Option<int>,
    bodySchema: Option<string>)

  /** A description entry the router returned for a request's URL and method. */
  datatype Candidate = Candidate(request: ExpectedRequest, response: ExpectedResponse)

  /** One message as handed to the validator; a field the object literal leaves out, or sets
      to `undefined`, is `None`. */
  datatype Side = Side(headers: HeaderMap, body: Option<string>, statusCode: Option<int>, bodySchema: Option<string>)

  /** The four messages built for one candidate. */
  datatype Pairing = Pairing(actualRequest: Side, expectedRequest: Side, actualResponse: Side, expectedResponse: Side)
}
