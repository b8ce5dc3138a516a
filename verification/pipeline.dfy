/** Per-entry processing as the program does it (index.js:29-106): route, build, validate,
    reduce to one verdict, report. */
module Pipeline {
  import opened Wrappers
  import opened Traffic
  import opened Sides
  import opened Gavel

  /** One tap record. */
  datatype Record = Pass(message: string) | Fail(message: string)

  /** What one log entry leads to: a record; no record, because a rejected promise reached a
      `.then` without a catch; or a TypeError thrown while building a candidate's messages. */
  datatype EntryOutcome = Reported(record: Record) | Unreported | Crashed(crash: Crash)

  const NotFound: string := "Not found!"
  const NotValid: string := "Not valid!"
  const Valid: string := "Valid"

  /** `${request.url} (${request.method}): ${verdict}` */
  function Message(url: string, httpMethod: string, verdict: string): string {
    url + " (" + httpMethod + "): " + verdict
  }

  /** `item[0] === true && item[1] === true`; a missing element reads as `undefined`. */
  predicate IsValidPair(item: seq<Value>) {
    |item| >= 2 && item[0] == Bool(true) && item[1] == Bool(true)
  }

  /** The index of the element `results.find(isValidPair)` returns, if any. */
  function Find(results: seq<seq<Value>>): (r: Option<nat>)
    ensures r.Some? <==> exists i :: 0 <= i < |results| && IsValidPair(results[i])
    ensures r.Some? ==> r.value < |results| && IsValidPair(results[r.value])
    ensures r.Some? ==> forall j :: 0 <= j < r.value ==> !IsValidPair(results[j])
    decreases |results|
  {
    if |results| == 0 then None
    else if IsValidPair(results[0]) then Some(0)
    else
      assert forall i :: 1 <= i < |results| ==> results[i] == results[1..][i - 1];
      match Find(results[1..])
      case None => None
      case Some(i) => Some(i + 1)
  }

  /** The `.then` callback: pass iff some candidate's pair of results is `(true, true)`. */
  function Report(url: string, httpMethod: string, results: seq<seq<Value>>): (r: Record)
    ensures r.Pass? <==> exists i :: 0 <= i < |results| && IsValidPair(results[i])
    ensures r.Pass? ==> r.message == Message(url, httpMethod, Valid)
    ensures r.Fail? ==> r.message == Message(url, httpMethod, NotValid)
  {
    if Find(results).None? then Fail(Message(url, httpMethod, NotValid)) else Pass(Message(url, httpMethod, Valid))
  }

  /** `possibleResults.lenght`: an array has no such property, so the read yields `undefined`
      whatever the candidates are. */
  function Lenght(cands: seq<Candidate>): Option<int> {
    None
  }

  /** Building candidate `c` throws no TypeError. */
  predicate Builds(req: HarRequest, resp: HarResponse, c: Candidate) {
    Build(req, resp, c).Success?
  }

  /** Building every candidate throws no TypeError. */
  predicate AllBuild(req: HarRequest, resp: HarResponse, cands: seq<Candidate>) {
    forall j :: 0 <= j < |cands| ==> Builds(req, resp, cands[j])
  }

  /** One of the two oracle calls for pairing `p` reports an error. */
  predicate Errs(gavel: Oracle, p: Pairing) {
    RequestOutcome(gavel, p).Failure? || ResponseOutcome(gavel, p).Failure?
  }

  /** Both oracle calls for pairing `p` resolve with exactly `true`. */
  predicate Accepts(gavel: Oracle, p: Pairing) {
    RequestOutcome(gavel, p) == Success(Bool(true)) && ResponseOutcome(gavel, p) == Success(Bool(true))
  }

  /** `possibleResults.map(...)` up to the messages: the pairings of all candidates in order, or
      the TypeError of the first candidate whose messages cannot be built. */
  function BuildAll(req: HarRequest, resp: HarResponse, cands: seq<Candidate>): (r: Result<seq<Pairing>, Crash>)
    ensures r.Success? <==> AllBuild(req, resp, cands)
    ensures r.Success? ==> |r.value| == |cands| && forall j :: 0 <= j < |cands| ==> Build(req, resp, cands[j]) == Success(r.value[j])
    ensures r.Failure? ==>
              exists j :: 0 <= j < |cands| && Build(req, resp, cands[j]) == Failure(r.error)
                          && forall k :: 0 <= k < j ==> Builds(req, resp, cands[k])
  {
    var built := seq(|cands|, j requires 0 <= j < |cands| => Build(req, resp, cands[j]));
    assert forall j :: 0 <= j < |cands| ==> built[j] == Build(req, resp, cands[j]);
    Collect(built)
  }

  /** `Promise.all(valid).then(...)` over the candidates' pairings: no record when an oracle call
      reports an error, otherwise the record of `Report`. */
  function Settle(gavel: Oracle, url: string, httpMethod: string, pairings: seq<Pairing>): (r: EntryOutcome)
    ensures !r.Crashed?
    ensures r.Unreported? <==> exists j :: 0 <= j < |pairings| && Errs(gavel, pairings[j])
    ensures r.Reported? ==>
              r.record == Pass(Message(url, httpMethod, Valid)) || r.record == Fail(Message(url, httpMethod, NotValid))
    ensures r.Reported? && r.record.Pass? <==>
              (forall j :: 0 <= j < |pairings| ==> !Errs(gavel, pairings[j]))
              && exists j :: 0 <= j < |pairings| && Accepts(gavel, pairings[j])
  {
    var outcomes := seq(|pairings|, j requires 0 <= j < |pairings| => ValidatePair(gavel, pairings[j]));
    match Collect(outcomes)
    case Failure(_) => Unreported
    case Success(results) =>
      assert forall j :: 0 <= j < |pairings| ==> (IsValidPair(results[j]) <==> Accepts(gavel, pairings[j]));
      Reported(Report(url, httpMethod, results))
  }

  /** The body of `entries.forEach` for one entry, given the router's candidates in order. */
  function ProcessEntry(gavel: Oracle, req: HarRequest, resp: HarResponse, cands: seq<Candidate>): (r: EntryOutcome)
    // no candidates: "Not valid!", never "Not found!"
    ensures |cands| == 0 ==> r == Reported(Fail(Message(req.url, req.httpMethod, NotValid)))
    ensures r.Reported? ==>
              r.record == Pass(Message(req.url, req.httpMethod, Valid))
              || r.record == Fail(Message(req.url, req.httpMethod, NotValid))
    // a TypeError from the first candidate whose messages cannot be built
    ensures r.Crashed? <==> !AllBuild(req, resp, cands)
    ensures r.Crashed? ==>
              exists j :: 0 <= j < |cands| && Build(req, resp, cands[j]) == Failure(r.crash)
                          && forall k :: 0 <= k < j ==> Builds(req, resp, cands[k])
    // an oracle error anywhere: no record at all
    ensures r.Unreported? <==>
              AllBuild(req, resp, cands)
              && exists j :: 0 <= j < |cands| && Builds(req, resp, cands[j]) && Errs(gavel, Build(req, resp, cands[j]).value)
    // otherwise a pass iff some candidate is accepted on both sides
    ensures r.Reported? && r.record.Pass? <==>
              AllBuild(req, resp, cands)
              && (forall j :: 0 <= j < |cands| && Builds(req, resp, cands[j]) ==> !Errs(gavel, Build(req, resp, cands[j]).value))
              && exists j :: 0 <= j < |cands| && Builds(req, resp, cands[j]) && Accepts(gavel, Build(req, resp, cands[j]).value)
  {
    if Lenght(cands) == Some(0) then Reported(Fail(Message(req.url, req.httpMethod, NotFound)))
    else
      match BuildAll(req, resp, cands)
      case Failure(crash) => Crashed(crash)
      case Success(pairings) =>
        Settle(gavel, req.url, req.httpMethod, pairings)
  }

  /** The outcome of one entry, routed by `route` on its URL and method. */
  function EntryResult(route: (string, string) -> seq<Candidate>, gavel: Oracle, e: Entry): EntryOutcome {
    ProcessEntry(gavel, e.request, e.response, route(e.request.url, e.request.httpMethod))
  }

  /** `entries.forEach(...)`: entries are processed in order, and a TypeError thrown for one entry
      ends the run, so later entries are never processed. */
  function Run(route: (string, string) -> seq<Candidate>, gavel: Oracle, entries: seq<Entry>): (r: seq<EntryOutcome>)
    ensures |r| <= |entries|
    ensures forall i :: 0 <= i < |r| ==> r[i] == EntryResult(route, gavel, entries[i])
    ensures forall i :: 0 <= i < |r| - 1 ==> !r[i].Crashed?
    ensures |r| < |entries| ==> |r| > 0 && r[|r| - 1].Crashed?
    ensures (forall i :: 0 <= i < |entries| ==> !EntryResult(route, gavel, entries[i]).Crashed?) ==> |r| == |entries|
    decreases |entries|
  {
    if |entries| == 0 then []
    else
      var first := EntryResult(route, gavel, entries[0]);
      if first.Crashed? then [first]
      else
        assert forall i :: 1 <= i < |entries| ==> entries[i] == entries[1..][i - 1];
        [first] + Run(route, gavel, entries[1..])
  }
}
