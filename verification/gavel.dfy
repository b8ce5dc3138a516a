/** The validation oracle and its promise wrappers (index.js:9-17, 91-94). */
module Gavel {
  import opened Wrappers
  import opened Traffic

  /** The `type` argument: `'request'` or `'response'`. */
  datatype Kind = RequestKind | ResponseKind

  /** What the oracle hands back as its result; only `Bool(true)` is `=== true`. */
  datatype Value = Bool(b: bool) | NonBoolean(repr: string)

  /** An error the oracle reports. */
  datatype OracleError = OracleError(reason: string)

  /** The arguments the oracle passes to its callback: `err` (`None` for any falsy value) and
      the result. */
  datatype Callback = Callback(err: Option<OracleError>, result: Value)

  /** `gavel.isValid(actual, expected, type, callback)`, as the callback arguments it produces. */
  type Oracle = (Side, Side, Kind) -> Callback

  /** `validate`: the promise that rejects with a truthy `err` and resolves with the result otherwise. */
  function Validate(gavel: Oracle, actual: Side, expected: Side, kind: Kind): (r: Result<Value, OracleError>)
    ensures r.Failure? <==> gavel(actual, expected, kind).err.Some?
    ensures r.Failure? ==> r.error == gavel(actual, expected, kind).err.value
    ensures r.Success? ==> r.value == gavel(actual, expected, kind).result
  {
    var cb := gavel(actual, expected, kind);
    if cb.err.Some? then Failure(cb.err.value) else Success(cb.result)
  }

  /** The request-side outcome of a pairing (`validateRequest`). */
  function RequestOutcome(gavel: Oracle, p: Pairing): Result<Value, OracleError> {
    Validate(gavel, p.actualRequest, p.expectedRequest, RequestKind)
  }

  /** The response-side outcome of a pairing (`validateResponse`). */
  function ResponseOutcome(gavel: Oracle, p: Pairing): Result<Value, OracleError> {
    Validate(gavel, p.actualResponse, p.expectedResponse, ResponseKind)
  }

  /** `Promise.all([validateRequest(...), validateResponse(...)])` for one candidate. */
  function ValidatePair(gavel: Oracle, p: Pairing): (r: Result<seq<Value>, OracleError>)
    ensures r.Success? <==> RequestOutcome(gavel, p).Success? && ResponseOutcome(gavel, p).Success?
    ensures r.Success? ==> r.value == [RequestOutcome(gavel, p).value, ResponseOutcome(gavel, p).value]
  {
    var both := [RequestOutcome(gavel, p), ResponseOutcome(gavel, p)];
    assert both[0] == RequestOutcome(gavel, p) && both[1] == ResponseOutcome(gavel, p);
    Collect(both)
  }
}
