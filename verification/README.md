# campustest grading core, modelled in Dafny

This project models the logic of the campustest test-taking server:

- **the auto-grader** in the submit handler. It makes one pass over a test's ordered questions and pairs question *i* with the answer at position *i*. Multiple-choice (`mcq`) answers are compared exactly. Fill-in-the-blank (`fill`) answers are compared after normalising: trim, lower-case, then delete every whitespace run. `long` and unrecognised questions are left ungraded. The pass emits one result item per question and accumulates `score` and `maxAuto`.
- **the store**: two documents. `tests` maps a test id to its definition. `submissions` maps a test id to the list of attempts, in arrival order. The model also covers the handlers that create or update a test, read a test, submit answers and list submissions.

Modules, one file each:

| file | module | contents |
|---|---|---|
| `wrappers.dfy` | `Wrappers` | `Option` (JavaScript `null`/`undefined`) and `Result` |
| `text.dfy` | `Text` | the fill-answer normaliser and a reference definition of its normal form |
| `grader.dfy` | `Grader` | questions, result items, the grading fold and its reference sums |
| `plain_object.dfy` | `PlainObject` | `obj[key]` on a JSON-parsed object: own keys plus the names inherited from `Object.prototype` |
| `store.dfy` | `Store` | the two maps, the four handlers as pure transitions, the store invariant, and the handlers as written (see Findings) |

Modelling choices:

- Each handler reads the whole store and returns a reply together with the new store.
- The reply `Failure(Crash)` stands for an uncaught TypeError in a handler. Such a request writes nothing back.
- Answers are `Option<seq<Option<string>>>`: the array may be missing and so may any entry. `Option<string>` is the response as recorded.
- A question's reference answer may be missing. Under the mcq rule a missing key matches no response, because `(ans ?? "") === undefined` is false. Under the fill rule it normalises to `""`.
- Marks are `nat`: whole, non-negative weights. See "Left out" for what this drops.
- Whitespace is the exact set shared by `String.prototype.trim` and `\s`: ECMAScript WhiteSpace plus LineTerminator. Lower-casing covers ASCII letters only.
- The fold `Grader.Fold` keeps the handler's running totals. Its partners are independent reference sums: `AutoMarks` for `maxAuto` and `SumAwarded` for `score`. The normaliser `Text.Norm` keeps the handler's three steps. Its partner is `Text.Canonical`: the non-whitespace characters, lower-cased.

In these places the code behaves in ways a reader may not expect; the model follows the code:

- A zero `duration` is rejected, because it is falsy.
- An mcq question without a reference answer can never be answered correctly.
- A stored test with no submissions list makes submit throw at the `push`. The store invariant `Store.Valid` shows this cannot happen from the empty documents, except for the inherited names listed under Findings.

## Model

| member | source | states |
|---|---|---|
| `Grader.Grade` | test/server.js:58-81 | there is one result item per question, and item *i* grades question *i* against answer *i*; `maxAuto` is the sum of marks over mcq/fill questions; `score` is the sum of the awarded marks and never exceeds `maxAuto` |
| `Grader.Fold` | test/server.js:58-81 | the single pass with running totals: it appends one item per remaining question in order, adds the auto-gradable marks of the remaining questions to `maxAuto` and their awarded marks to `score`, and the score increase never exceeds the `maxAuto` increase |
| `Grader.GradeQuestion` | test/server.js:62-78 | the item carries the question's position, type, marks and the response; a verdict is present exactly for mcq and fill; the awarded amount is the full marks when correct, else 0 |
| `Grader.AnswerAt` | test/server.js:61 | the response for position *i* is the entry at *i*; it is absent past the end of the array or when no array was sent |
| `Grader.MaxAutoIgnoresAnswers` | test/server.js:59-70 | `maxAuto` is the same for every answer set and equals the sum of marks over mcq/fill questions |
| `Grader.ExtraAnswersIgnored` | test/server.js:60-61 | two answer sets that agree on the first `|questions|` positions grade identically: answers past the last question are never read |
| `Grader.McqRule` | test/server.js:64-68 | mcq is correct exactly when a key exists and equals the response, with a missing response read as `""`; the verdict is always present; the full marks are awarded exactly when correct |
| `Grader.FillRule` | test/server.js:69-74 | fill is correct exactly when response and key (missing read as `""`) have the same non-whitespace characters, lower-cased, in the same order |
| `Grader.UngradedRule` | test/server.js:62-78 | a long or unrecognised question gets no verdict and 0 awarded, whatever the answer |
| `Grader.UngradedAddsNoMarks` | test/server.js:64-78 | a long or unrecognised question contributes nothing to the `maxAuto` sum |
| `Grader.McqExample` | test/server.js:66 | with key "B", "B" earns the marks, while "b", " B " and a missing answer earn nothing |
| `Grader.ExampleWithLong` | test/server.js:58-81 | an mcq worth 5 answered right plus a long worth 10 gives score 5 and maxAuto 5; the long item has no verdict and keeps its response |
| `Text.Lower` | test/server.js:71 | an upper-case letter maps to the lower-case letter at the same alphabet position; every other character is left alone; the result is never upper-case and is whitespace exactly when the input is |
| `Text.TrimStart` | test/server.js:71 | the result is a suffix of the input; everything dropped is whitespace, and the result does not start with whitespace |
| `Text.TrimEnd` | test/server.js:71 | the result is a prefix of the input; everything dropped is whitespace, and the result does not end with whitespace |
| `Text.Trim` | test/server.js:71 | the trimmed string is the slice of the input between a leading and a trailing run of whitespace, inner whitespace kept; it neither starts nor ends with whitespace |
| `Text.TrimDropsOnlyWhitespace` | test/server.js:71 | trimming keeps every non-whitespace character, in order |
| `Text.ToLower` | test/server.js:71 | lower-casing keeps the length and maps each character through `Lower` |
| `Text.RemoveWhitespace` | test/server.js:71 | deleting whitespace runs leaves no whitespace, never lengthens the string, and returns a string with no whitespace unchanged; with `RemoveWhitespaceAppend` and `RemoveWhitespaceOfBlank` (an all-whitespace string becomes empty) this fixes the result as the non-whitespace characters in order |
| `Text.RemoveWhitespaceAppend` | test/server.js:71 | deleting whitespace distributes over concatenation |
| `Text.NormIsCanonical` | test/server.js:71 | the normaliser equals the reference normal form (non-whitespace characters, lower-cased), so the leading trim is redundant |
| `Text.NormIsClean` | test/server.js:71 | the normal form has no whitespace and no upper-case letter |
| `Text.NormIdempotent` | test/server.js:71 | normalising twice is normalising once |
| `Text.NormOptOfMissing` | test/server.js:71 | a missing value normalises to the empty string |
| `Text.NormIgnoresWhitespace` | test/server.js:71 | inserting a whitespace character anywhere leaves the normal form unchanged |
| `Text.CanonicalCaseExample` | test/server.js:71 | "PARIS" has the same normal form as the key "Paris" |
| `Text.CanonicalSpaceExample` | test/server.js:71 | "  paris " and "pa ris" have the same normal form as the key "Paris" |
| `Text.CanonicalMisspellingExample` | test/server.js:71 | "parris" does not have the same normal form as the key "Paris" |
| `Text.NormIgnoresCase` | test/server.js:71 | strings equal after lower-casing have the same normal form |
| `PlainObject.Lookup` | test/server.js:37 | `obj[key]` is the own value for an own key; it is `undefined` only when the key is neither own nor inherited |
| `Store.UpsertTest` | test/server.js:27-41 | a payload with empty id or title, zero duration or non-array questions is rejected with the store unchanged; otherwise the test is stored under its id, that id's existing list is kept or an empty one created, and every other entry of both maps is unchanged; validity is preserved |
| `Store.GetTest` | test/server.js:44-49 | a known id yields its stored test; an unknown id yields `NotFound` |
| `Store.Submit` | test/server.js:52-98 | an unknown id yields `NotFound` with no effect; on a valid store a known id succeeds, the reply is the grading of the stored questions, and exactly one record is appended at the end of that id's list; the tests and all other lists are unchanged; validity is preserved |
| `Store.ListSubmissions` | test/server.js:102-105 | a known id yields its list, an unknown id yields `[]` |
| `Store.UpsertThenGet` | test/server.js:32-48 | after an accepted upsert, reading the test returns it with its questions in the order given, and its submissions are untouched |
| `Store.UpsertIdempotent` | test/server.js:27-41 | repeating an upsert leaves the reply and the store as after the first |
| `Store.SubmissionsKeepArrivalOrder` | test/server.js:83-104 | two submits to one test are both listed after the earlier ones, in call order |
| `Store.ReplayKeepsValid` | test/server.js:27-98 | any sequence of upserts and submits keeps every stored test's submissions list in place |
| `Store.SubmitNeverCrashes` | test/server.js:95 | from the empty documents, after any requests, the append in submit never fails |
| `Store.UpsertTestAsWritten` | test/server.js:37 | the handler as written agrees with `UpsertTest` on every id that is not an inherited property name |
| `Store.SubmitAsWritten` | test/server.js:55-95 | the handler as written agrees with `Submit` on every id that is not an inherited property name, and a failure changes nothing |
| `Store.ConstructorIdLosesSubmissions` | test/server.js:37-95 | as written, creating test "constructor" leaves it without a list and a later submit throws; the corrected handlers accept the submission |
| `Store.InheritedIdIsNotNotFound` | test/server.js:55-60 | in any store, submitting to an inherited name such as "toString" that is not a stored test throws as written; the corrected handler answers `NotFound` and changes nothing |

## Left out

- HTTP routing, CORS, body parsing, static files and the listening socket (test/server.js:1-12, 107-109). Each handler is a function of the request fields.
- File persistence (`readJSON`, `writeJSON`, creating the data directory, test/server.js:14-24). The documents are in-memory maps, and read/write failures (a storage error) are not modelled.
- The browser and Firestore code appended to the file (test/server.js:110-149). It is DOM code against a foreign database client, not part of the server.
- JavaScript dynamic typing: non-string ids and a `duration` that is not a number. Duration is modelled as an integer, with absent as 0.
- Non-string answers and keys. Under the mcq rule they are compared with `===`, so the number 1 never equals "1". Under the fill rule they go through `.toString()`. Both are left out because responses and keys are modelled as text only.
- Grader.Grade: marks are natural numbers only. Two behaviours of the `+=` at test/server.js:65, 70 and 79 are dropped. Fractional marks are summed in floating point, with rounding. Negative marks break `score <= maxAuto`: an mcq worth -5 answered wrong gives score 0 and maxAuto -5. Non-numeric or string marks under `+=` are left out too.
- Store.Submit: question entries are always question objects. The create/update guard at test/server.js:29 only checks that `questions` is an array, so an entry such as `null` is stored. Every later submit to that test then throws when it reads `q.type` at line 62. The model cannot represent such an entry, so `Submit`'s promise that a stored test on a valid store always succeeds covers well-formed questions only.
- Grader.AnswerAt: the answers are an array or missing. A string or an object sent as `answers` is still indexed by `answers?.[i]` at test/server.js:61, for example picking single characters of a string. The `Answers` type cannot represent that input.
- Text.Lower: maps ASCII letters only, not full Unicode case folding, because JavaScript's `toLowerCase` tables are outside the model.
- Display-only question fields (question wording, option lists) and extra payload fields. Grading never reads them.
- The `__proto__` accessor name. Assigning to it replaces an object's prototype instead of storing a key, so it is not in `PlainObject.InheritedNames`.
- The as-written get and list handlers for inherited names, which answer with a function instead of a test or a list. Only the submit and upsert consequences are modelled.
- Concurrency: two requests can interleave their read-modify-write of a whole document. The model handles one request at a time.
- Timestamps and student identity: they are opaque text copied into the record.

## Findings

| source | as written | input that shows it | evidently intended | confidence | as-written member | corrected member |
|---|---|---|---|---|---|---|
| test/server.js:37 | `if (!subs[testId])` checks truthiness. Names inherited from `Object.prototype` are functions, so no list is created for them. The later `subs[id].push` at line 95 then throws. | create test "constructor", then submit to it | every stored test gets its own submissions list, and submissions to it are recorded | not executed | `Store.UpsertTestAsWritten`, shown by `Store.ConstructorIdLosesSubmissions` | `Store.UpsertTest`, with `Store.ReplayKeepsValid` and `Store.SubmitNeverCrashes` |
| test/server.js:55-60 | `if (!test)` lets an inherited name through. Its value has no `questions`, so `.map` throws. | submit to "toString", or any other inherited name, with no such test | reply `NotFound`, with nothing written | not executed | `Store.SubmitAsWritten`, shown by `Store.InheritedIdIsNotNotFound` | `Store.Submit` |
