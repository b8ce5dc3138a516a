# element-validation, modelled in Dafny

`element-validation` checks recorded HTTP traffic (a HAR log) against an API description.
For each log entry it does five things:

- asks a router for the description entries ("candidates") that match the request's URL and method;
- folds the header lists of both sides into plain objects;
- builds four messages per candidate: actual request, expected request, actual response, expected response;
- validates each request pair and each response pair with the `gavel` oracle;
- emits one tap record, `<url> (<method>): Valid` or `... Not valid!`.

This project models that per-entry logic as it is written in `index.js`, quirks included. It also has a corrected variant for each quirk that looks like a bug (see "Findings").

Modules:

- `Wrappers`: `Option`, `Result`, and `Collect`. `Collect` stands for both `Promise.all` and a `map` whose callback may throw.
- `Headers`: folding `{name, value}` and `{key, value}` lists into a `map<string, string>`.
- `Traffic`: HAR requests and responses, candidates, and the messages given to the oracle.
- `Sides`: building the four messages of one candidate, including the TypeErrors that building can throw.
- `Gavel`: the oracle as a function-typed parameter, plus the promise wrappers around it.
- `Pipeline`: the verdict reduction, the record text, one entry, and the `forEach` over entries.
- `Corrected`: the intended behaviour, proved, and a lemma that it agrees with the program away from the quirks.
- `Findings`: concrete inputs that exhibit each quirk.

Collaborators the model takes as parameters:

- The router (`elementRouter.getResults`): `ProcessEntry` takes its output as a `seq<Candidate>`, and `Run` takes it as a function.
- The oracle (`gavel.isValid`): the `Oracle` parameter. It returns the arguments it would pass to its callback.
- The tap sink: `Pipeline.Record`, returned rather than emitted.

## Model

| member | source | states |
|---|---|---|
| Wrappers.Collect | index.js:91-96 | Succeeds iff every element succeeds, with their values in order. Otherwise it yields the failure of the first element that failed, and every element before that one succeeded. |
| Headers.AssignKeys | index.js:55-58 | After the assignments run on `{}`, the object's keys are exactly the property names the assignments write. |
| Headers.AssignLastWins | index.js:61-64 | A property holds the value of the last assignment that writes it. |
| Headers.NamedMap | index.js:55-65 | An absent list gives `{}`. Otherwise the keys are exactly the `name`s in the list, and each name maps to the value of its last header. |
| Headers.KeyedMap | index.js:43-47 | The same for a `{key, value}` list, keyed by `key`: absent gives `{}`, keys are exactly the list's keys, and the last value wins. |
| Sides.Build | index.js:49-89 | The build throws a TypeError in exactly three cases, checked in this order: (1) the candidate declares response headers but the log response has none; (2) the request has no `postData`; (3) the response has no `content`. Otherwise it states the source of each header map, body, status code and schema. When the candidate declares response headers, the expected response headers equal the actual ones. Both expected sides carry the request's `bodySchema`. |
| Gavel.Validate | index.js:9-14 | Rejects, with the callback's error, iff that error is truthy. Otherwise resolves with the callback's result. |
| Gavel.ValidatePair | index.js:91-94 | Resolves iff both the request and the response validation resolve, with their two results in that order. |
| Pipeline.Find | index.js:98 | Finds something iff some element is exactly `(true, true)`. What it finds is the first such element. |
| Pipeline.Report | index.js:98-103 | Passes iff some candidate's results are exactly `(true, true)`. A pass carries the message `<url> (<method>): Valid` and a failure carries `... Not valid!`. |
| Pipeline.BuildAll | index.js:37-89 | Succeeds iff every candidate's messages can be built, giving one pairing per candidate in router order. Otherwise it yields the TypeError of the first candidate whose build fails. |
| Pipeline.Settle | index.js:96-104 | Gives no record iff some candidate's oracle call reports an error. Otherwise it passes iff some candidate is accepted on both sides. It never crashes. |
| Pipeline.ProcessEntry | index.js:33-105 | An empty candidate list gives `Fail("<url> (<method>): Not valid!")`. No record ever says "Not found!". A crash happens iff some candidate cannot be built, and the crash is that of the first such candidate. No record is emitted iff everything builds and some oracle call errors. A pass happens iff everything builds, no oracle call errors, and some candidate is accepted on both sides. |
| Pipeline.Run | index.js:29-106 | Entries are processed in order, one outcome per processed entry. Processing stops right after the first entry that crashes. If no entry crashes, every entry gets an outcome. |
| Corrected.Build | index.js:84-89 | The expected response takes its headers from the candidate's own response headers, keyed by `name`, and its schema from the candidate's response. A missing `postData` or `content` gives an absent body, not a TypeError. Where the program can build its messages, only the expected response differs. When the candidate declares no response headers and one schema for both sides, nothing differs. |
| Corrected.Settled | index.js:91-98 | A candidate's settled results are a valid pair iff both oracle calls resolve with exactly `true`. An oracle error counts as invalid. |
| Corrected.ProcessEntry | index.js:34-35 | No candidates gives `Fail("<url> (<method>): Not found!")`. Otherwise it passes iff some candidate is accepted on both sides, with the message `Valid` or `Not valid!`. Every entry gets exactly one record. |
| Corrected.AgreesOffQuirks | index.js:37-104 | Take a non-empty candidate list, a request with `postData`, a response with `content`, candidates with no declared response headers and one schema, and no oracle errors. Then the program and the corrected model give the same record. |
| Findings.NotFoundUnreachable | index.js:34 | An unmatched `GET /unknown` is reported `Not valid!` by the program and `Not found!` by the corrected model. |
| Findings.ResponseHeadersFromLog | index.js:49-53 | A candidate that declares `X-Expected` is expected to carry the log's `X-Actual` header. The corrected model expects `X-Expected`. |
| Findings.ResponseSchemaFromRequest | index.js:88 | The expected response takes the request schema. The corrected model takes the response schema. |
| Findings.GetWithoutPostData | index.js:69 | A request without `postData` that has one candidate crashes the program. The corrected model reports it. |
| Findings.OracleErrorUnreported | index.js:11 | With an oracle that always errors, the program emits no record. The corrected model emits `Not valid!`. |

## Findings

| source | as written | input that shows it | evidently intended | confidence | as-written member | corrected member |
|---|---|---|---|---|---|---|
| index.js:34 | `possibleResults.lenght === 0` reads a property that does not exist, so the test is always false | an entry no description entry matches, e.g. `GET /unknown` with zero candidates: reported `Not valid!` | `length`, reporting `Not found!` | high (not executed) | Findings.NotFoundUnreachable | Corrected.ProcessEntry |
| index.js:50 | the expected response headers are folded from the log's `response.headers` | a candidate declaring `X-Expected` against a log response sending `X-Actual` | `result.response.headers` | high (not executed) | Findings.ResponseHeadersFromLog | Corrected.Build |
| index.js:88 | the expected response's `bodySchema` is `result.request.bodySchema` | a candidate whose request and response schemas differ | `result.response.bodySchema` | medium (not executed) | Findings.ResponseSchemaFromRequest | Corrected.Build |
| index.js:69 | `request.postData.text` throws when the HAR request has no `postData` | a `GET` without `postData` that has one candidate: the whole run stops | an absent body | medium (not executed) | Findings.GetWithoutPostData | Corrected.Build |
| index.js:96-104 | an oracle error rejects `Promise.all` and reaches a `.then` with no catch | an oracle that reports an error for every call: no record for the entry | the candidate counts as invalid and the entry is still reported | medium (not executed) | Findings.OracleErrorUnreported | Corrected.Settled |

The as-written model (`Sides`, `Pipeline`) keeps every one of these quirks. The `Corrected` module gathers the fixes. Its `AgreesOffQuirks` shows that the fixes change nothing on inputs that avoid the quirks.

## Left out

- Command-line parsing and reading and parsing of the two JSON files (index.js:19-25): process I/O.
- jsonpath extraction of entries, requests and responses (index.js:27-31): a foreign library. Entries come in already extracted as `Traffic.Entry`.
- Route matching (index.js:33): a foreign library. Its result is an input, so templated-path matching is not modelled.
- What `gavel.isValid` decides: an opaque oracle. The model also assumes the oracle calls back exactly once. An oracle that never calls back would leave the entry pending forever.
- Promise scheduling (index.js:91-96). Candidates are evaluated in router order, which is the order `Promise.all` preserves. Which rejection wins when several calls error is not modelled, because nothing reads the rejection reason.
- What an unhandled rejection or a thrown TypeError does to the process, such as the records of earlier entries still pending when the process stops. This depends on the Node.js runtime. The model says only that the entry gets no record (`Unreported`) or that the run stops at the entry (`Crashed`).
- The order in which tap prints records of different entries. It depends on when each entry's promises settle.
- A TypeError from a candidate without `request` or `response`, or from a log entry without `request`. The router and the extraction are taken to always supply them.
- JavaScript property-name quirks of plain objects, such as a header named `__proto__`. Header maps are exact string maps.
- The distinction between a field set to `undefined` and a field left out of an object literal: both are `None`.
- Status codes are integers on both sides. Bodies and schemas are opaque strings.
- The extra `};` at index.js:75-76 is a syntax slip. The model uses the evident `expectedRequest` object with headers, body and `bodySchema`.
