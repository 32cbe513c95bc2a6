# CheckRideReady session core, in Dafny

CheckRideReady runs adaptive oral-exam sessions for pilot certificates (PPL, IR, CPL). A
session is started for a mode. The next-question route then serves either a follow-up
"probe" on the current question or a new base question of the mode, avoiding the ten most
recently served ones. The answer route grades a free-text answer, logs the attempt, moves
the examinee's 0–5 mastery score for the question's task code, and records the verdict on
the session. That verdict drives the next probe decision. Two graders sit beside the
routes:
- a deterministic rubric grader, with four feature checks, a red-flag phrase list and a
  decision table;
- a language-model pipeline. It validates and normalises the model's JSON reply, asks at
  most three times, and gives up with `null`.

The model:

- `Store` (module `Database`) is a class whose fields are the database tables:
  - sessions by id;
  - the question list;
  - the attempt log;
  - skill rows keyed by user and task code.

  Each route handler is a method on it: `Start`, `Next`, `LegacyNext` and `Submit`. Each
  method's `ensures` states the response and the exact new contents of every table, in
  terms of the pure functions below. It also states that the table invariant is kept:
  - probe counter within `[0, max]`;
  - at most ten distinct recent ids;
  - mastery within `[0, 5]`;
  - passes plus fails no more than attempts.
- `ORDER BY RAND() LIMIT 1` is a nondeterministic choice (`:|`) among the eligible
  questions. The method promises only what any such choice satisfies (`BaseChoice`).
- `NextPrompt`, `RecentList`, `AnswerSubmit` and `SessionsStart` hold the routes'
  decisions as functions, with lemmas:
  - the probe rule;
  - the probe prompt;
  - the recent-list update;
  - the inline grader;
  - the mastery delta and skill upsert;
  - the probe-counter update;
  - the initial session row.
- `SessionFlow` follows one session row through any sequence of served base questions
  and graded answers. It proves:
  - the invariant holds throughout;
  - no route ever stores a follow-up question, so a session created by `sessions/start`
    is never served a probe;
  - a PASS, REMEDIATE or FAIL verdict leaves no probe due;
  - a run of PROBE verdicts keeps a probe due however long it lasts.
- `OpenAIEvaluator` models `parseEvaluation` as `Validate`/`ParseEvaluation` over JSON
  values, and the retry loop as the method `EvaluateWithOpenAI`:
  - the remote call is an oracle, given as the sequence of its three replies;
  - `JSON.parse` and `Number(string)` are parameters (`Runtime`);
  - the method is proved against the recursive specification `Evaluate`, and the
    messages it sends are proved equal to `Transcript`.
- `StubEvaluator` models `evaluateStub` as a function. The four regular-expression
  checks are parameters (`FeatureChecks`).
- `Text` models the JavaScript string operations the routes and evaluators use:
  - `trim`;
  - `split(/\s+/).filter(Boolean)`;
  - `includes`;
  - ASCII `toLowerCase`;
  - integer-to-decimal rendering.

Where the design documentation and the code disagree, the model follows the code:
- `evaluateWithOpenAI` returns `null` (`Exhausted`) when every reply is invalid, and
  propagates a failed call (`OracleError`). It does not return a fallback PROBE verdict.
- `parseEvaluation` accepts empty or blank feedback (it becomes `""`). It does not
  reject it.
- The submit route's mastery delta is a constant per verdict (+0.7, +0.2, −0.6, −1.0).
  It is not weighted by confidence.
- The submit route grades with its own inline placeholder (`stubEvaluate`), which never
  returns FAIL. It does not use either evaluator module.
- The probe counter grows (up to the maximum) only after PROBE. Any other verdict,
  REMEDIATE and FAIL included, resets it to 0.
- The probe counter is capped by `LEAST(max, count + 1)`, so it never passes the
  maximum. Probing therefore does not stop after `max` probes: a run of PROBE verdicts
  keeps a probe due forever (`SessionFlow.ProbeStreakNeverEnds`). The design's bounded
  remediation does not happen.
- The fails counter counts REMEDIATE and FAIL only, not PROBE.
- No route writes `last_probe_question`, so the probe path is never taken for a session
  created by the start route (`SessionFlow.StartedSessionNeverProbes`).
- The submit route looks the question id up verbatim. An answer submitted under a probe
  id is refused with 404 when no question id carries the probe marker `__probe_`
  (`Database.SubmittedProbeIdRejected`). A question whose own id carries the marker
  would be graded instead.

## Model

| member | source | states |
|---|---|---|
| Verdicts.FromName | checkrideready/lib/evaluator/openai.ts:1 | a string names a result code exactly when it is one of the four names, and the code's name is that string |
| Json.Get | checkrideready/lib/evaluator/openai.ts:47-53 | a property read yields a value exactly when the parsed value is an object holding that key |
| Text.Trim | checkrideready/lib/evaluator/stub.ts:39 | `trim` never lengthens, leaves no whitespace at either end, and returns an already-trimmed string unchanged |
| Text.TrimIsSlice | checkrideready/lib/evaluator/stub.ts:39 | the trimmed string is the slice of the input between a whitespace-only prefix and a whitespace-only suffix |
| Text.TrimEmptyIffSpaces | checkrideready/app/api/answer/submit/route.ts:22 | trimming yields the empty string exactly when the input is all whitespace |
| Text.TrimIdempotent | checkrideready/lib/evaluator/openai.ts:63 | trimming twice equals trimming once |
| Text.Words | checkrideready/lib/evaluator/stub.ts:41 | every element of `split(/\s+/).filter(Boolean)` is a non-empty run of non-whitespace characters |
| Text.NoWordsIffSpaces | checkrideready/app/api/answer/submit/route.ts:23 | a text has no words exactly when it is all whitespace |
| Text.WordCountIsWordStarts | checkrideready/lib/evaluator/stub.ts:41 | the word count equals the number of non-whitespace characters that start the text or follow whitespace |
| Text.Contains | checkrideready/lib/evaluator/stub.ts:60 | `includes` is true exactly when the phrase occurs at some position |
| Text.ContainsAny | checkrideready/lib/evaluator/stub.ts:60 | `some(p => includes(p))` is true exactly when some phrase of the list occurs |
| Text.ToLowerLowers | checkrideready/lib/evaluator/stub.ts:40 | lower-casing leaves no upper-case ASCII letter, keeps every other character, and is idempotent |
| Text.TrimToLower | checkrideready/lib/evaluator/stub.ts:39-40 | trimming and lower-casing commute |
| Text.ContainsSurvivesTrim | checkrideready/app/api/answer/submit/route.ts:22-27 | a phrase with no whitespace at its ends that occurs in a text still occurs after the text is trimmed |
| Text.ContainsAnySurvivesTrim | checkrideready/app/api/answer/submit/route.ts:22-27 | such a phrase of a list, found in the lower-cased answer, is found in the trimmed, lower-cased answer the evaluators test |
| Text.NatToStringRoundTrip | checkrideready/app/api/sessions/next/route.ts:84 | the decimal rendering of a count is all digits and reads back as that count |
| Text.NatToStringInjective | checkrideready/app/api/sessions/next/route.ts:84 | different counts render differently |
| Records.FindQuestion | checkrideready/app/api/answer/submit/route.ts:93-101 | the lookup by id finds a question exactly when some question has that id, and what it finds is in the table with that id |
| Records.FindQuestionUnique | checkrideready/app/api/answer/submit/route.ts:93-101 | when question ids are unique, as the store keeps them, the question found for an id held by row k is row k, so the result does not depend on which matching row `LIMIT 1` returns |
| RecentList.Without | checkrideready/app/api/sessions/next/route.ts:141 | filtering out an id never lengthens the list and leaves no copy of that id |
| RecentList.WithoutMembership | checkrideready/app/api/sessions/next/route.ts:141 | filtering keeps exactly the other ids |
| RecentList.WithoutAppend | checkrideready/app/api/sessions/next/route.ts:141 | filtering distributes over concatenation, so the kept ids keep their order |
| RecentList.WithoutAbsent | checkrideready/app/api/sessions/next/route.ts:141 | filtering out an absent id changes nothing |
| RecentList.WithoutKeepsDistinct | checkrideready/app/api/sessions/next/route.ts:141 | filtering keeps a list free of repeats |
| RecentList.NewRecent | checkrideready/app/api/sessions/next/route.ts:141 | the new recent list holds between 1 and 10 ids |
| RecentList.NewRecentShape | checkrideready/app/api/session/next/route.ts:107 | the new list starts with the served id and has no other copy of it; the rest is a prefix of the old list without that id, in order; its length is min(10, 1 + rest); every id in it was served now or listed before |
| RecentList.NewRecentDistinct | checkrideready/app/api/sessions/next/route.ts:141 | serving an id keeps the recent list free of repeats |
| RecentList.NewRecentOfHead | checkrideready/app/api/session/next/route.ts:107 | re-serving the id at the head of a valid list leaves the list unchanged |
| NextPrompt.ProbeBase | checkrideready/app/api/sessions/next/route.ts:62-81 | a probe is built only when `shouldProbe` holds and a follow-up question is stored |
| NextPrompt.ProbeBaseConditions | checkrideready/app/api/sessions/next/route.ts:62-81 | a probe is served exactly when all six conditions hold (no forced base, last verdict PROBE/REMEDIATE/FAIL, 0 < count <= max, a current question, a stored follow-up, the base row exists), and it is built on the current question |
| NextPrompt.ProbeIdsDiffer | checkrideready/app/api/sessions/next/route.ts:84 | a probe id extends its base id, and probes with different counters on one base get different ids |
| NextPrompt.ProbeIdNamesNoQuestion | checkrideready/app/api/answer/submit/route.ts:93-101 | when no question id carries the probe marker, no question is found under a probe id |
| NextPrompt.BaseUpdateKeepsInvariant | checkrideready/app/api/sessions/next/route.ts:141-153 | serving a base question keeps the session invariant, puts its id at the head of the recent list, and leaves no probe due |
| AnswerSubmit.StubEvaluate | checkrideready/app/api/answer/submit/route.ts:15-59 | the inline grader never returns FAIL, reports one red flag exactly for REMEDIATE, and its confidence lies in [0, 1] (the exact per-verdict values are in `StubEvaluateCases`) |
| AnswerSubmit.StubEvaluateCases | checkrideready/app/api/answer/submit/route.ts:22-58 | REMEDIATE exactly when a red-flag phrase occurs; PROBE exactly when none does and the answer has fewer than 25 words; PASS otherwise; missing count 2, 3 or 1, confidence 0.8, 0.6 or 0.7, and the red-flag, too-thin or good-structure feedback accordingly |
| AnswerSubmit.SubmitRedFlagPhrasesTrimmed | checkrideready/app/api/answer/submit/route.ts:26 | every phrase of the route's list is non-empty, lower-case, with no whitespace at either end |
| AnswerSubmit.RedFlagRemediates | checkrideready/app/api/answer/submit/route.ts:26-38 | a red-flag phrase anywhere in the answer, in any ASCII letter case, sends it to REMEDIATE |
| AnswerSubmit.NoSubmitRedFlagInEmpty | checkrideready/app/api/answer/submit/route.ts:26-27 | no red-flag phrase occurs in the empty text |
| AnswerSubmit.BlankAnswerProbes | checkrideready/app/api/answer/submit/route.ts:22-49 | a whitespace-only answer, which passes the route's emptiness check, is graded PROBE |
| AnswerSubmit.Clamp | checkrideready/app/api/answer/submit/route.ts:9-11 | `clamp` lands in `[lo, hi]`, is the identity inside it, gives `lo` below it and `hi` above it |
| AnswerSubmit.MasteryDeltaFallsWithSeverity | checkrideready/app/api/answer/submit/route.ts:132-136 | a more severe verdict has a strictly lower delta; only PASS and PROBE raise mastery |
| AnswerSubmit.SkillAfter | checkrideready/app/api/answer/submit/route.ts:139-158 | after the upsert mastery is the old mastery (0 for a new row) plus the verdict's delta, clamped to [0, 5], so a new row starts at `clamp(delta, 0, 5)` and an existing one saturates at 0 and 5; attempts grow by one; passes by one exactly for PASS; fails by one exactly for REMEDIATE or FAIL |
| AnswerSubmit.SkillAfterKeepsInvariant | checkrideready/app/api/answer/submit/route.ts:139-158 | the upsert keeps a skill row consistent (mastery on the scale, passes plus fails within attempts) |
| AnswerSubmit.MasteryFollowsDelta | checkrideready/app/api/answer/submit/route.ts:144 | away from the ends of the scale mastery moves by exactly the delta, and a more severe verdict never leaves a higher mastery |
| AnswerSubmit.NextProbeCountInRange | checkrideready/app/api/answer/submit/route.ts:167-171 | the new counter stays in [0, max], is positive after PROBE when max is, is 0 after any other verdict, and stays at max after PROBE at max |
| AnswerSubmit.AfterSubmitKeepsInvariant | checkrideready/app/api/answer/submit/route.ts:162-184 | recording a verdict keeps the session invariant and leaves the follow-up question, recent list, mode, owner and status unchanged |
| SessionsStart.ModeFromName | checkrideready/app/api/sessions/start/route.ts:5-7 | `isMode` accepts exactly "PPL", "IR" and "CPL", and the mode it yields has that name |
| SessionsStart.ModeNameRoundTrip | checkrideready/app/api/sessions/start/route.ts:5-7 | every mode is accepted under its own name |
| SessionsStart.NewSession | checkrideready/app/api/sessions/start/route.ts:27-32 | the inserted row (active, counter 0 of 2, empty recent list) satisfies the session invariant |
| OpenAIEvaluator.IsResult | checkrideready/lib/evaluator/openai.ts:36-38 | `isResult` holds exactly for the strings "PASS", "PROBE", "REMEDIATE", "FAIL" |
| OpenAIEvaluator.Clamp01 | checkrideready/lib/evaluator/openai.ts:40-43 | the result lies in [0, 1]; it is 0 for a non-finite number and saturates finite ones |
| OpenAIEvaluator.Strings | checkrideready/lib/evaluator/openai.ts:51 | an array whose every element is a string is read as those strings, one for one |
| OpenAIEvaluator.NormalizePoints | checkrideready/lib/evaluator/openai.ts:64 | the normalised points are no more than the input's, each non-empty and trimmed |
| OpenAIEvaluator.NormalizePointsAppend | checkrideready/lib/evaluator/openai.ts:64 | normalising distributes over concatenation, so order is kept |
| OpenAIEvaluator.NormalizePointsMembership | checkrideready/lib/evaluator/openai.ts:64 | a point survives exactly when it is the non-empty trimmed form of some input point |
| OpenAIEvaluator.NormalizePointsIdempotent | checkrideready/lib/evaluator/openai.ts:64 | normalising twice equals normalising once |
| OpenAIEvaluator.Validate | checkrideready/lib/evaluator/openai.ts:48-70 | a parsed reply is accepted exactly when every required field has its type |
| OpenAIEvaluator.ParseEvaluation | checkrideready/lib/evaluator/openai.ts:45-74 | `parseEvaluation` is non-null exactly when the text parses and every required field has its type |
| OpenAIEvaluator.ParseEvaluationNormalized | checkrideready/lib/evaluator/openai.ts:60-70 | an accepted evaluation has confidence in [0, 1], trimmed feedback and task code, non-empty trimmed points, and a non-empty trimmed probe question when there is one |
| OpenAIEvaluator.ValidateKeepsFields | checkrideready/lib/evaluator/openai.ts:60-69 | acceptance keeps the reply's result code, trims feedback and task code, drops the probe question exactly when it is null or blank and otherwise keeps it trimmed, and takes the confidence as the clamped number, or `Number` of a string, 0 when absent or null |
| OpenAIEvaluator.ValidateKeepsPoints | checkrideready/lib/evaluator/openai.ts:64 | the accepted points are exactly the non-empty trimmed strings of the reply's array |
| OpenAIEvaluator.BlankFeedbackAccepted | checkrideready/lib/evaluator/openai.ts:49-63 | a blank feedback string does not make the reply invalid, and comes out empty |
| OpenAIEvaluator.RetryPromptEmbeds | checkrideready/lib/evaluator/openai.ts:161-170 | a retry message contains the original context and ends with the invalid output |
| OpenAIEvaluator.CallsFrom | checkrideready/lib/evaluator/openai.ts:150-176 | starting from call `k`, the calls made number at most three, and at least one more call is made while fewer than three have been made |
| OpenAIEvaluator.TranscriptMessages | checkrideready/lib/evaluator/openai.ts:150-171 | the k-th message sent is the message of call k, and every message carries the original context |
| OpenAIEvaluator.EvaluateWithOpenAI | checkrideready/lib/evaluator/openai.ts:145-179 | the loop returns the outcome `Evaluate` specifies, after sending exactly the transcript of the calls it makes |
| OpenAIEvaluator.EvaluateSkipsInvalid | checkrideready/lib/evaluator/openai.ts:160-176 | invalid replies are skipped: the outcome and call count are decided by the first reply that is not invalid output |
| OpenAIEvaluator.AcceptedIsFirstValidReply | checkrideready/lib/evaluator/openai.ts:155-175 | the accepted evaluation is the first reply that validates, with the caller's task code, and no call is made after it |
| OpenAIEvaluator.AcceptedCarriesCallerCode | checkrideready/lib/evaluator/openai.ts:157-174 | whatever the reply echoed, an accepted evaluation carries the caller's task code and is in normal form |
| OpenAIEvaluator.ExhaustedFromIffAllInvalid | checkrideready/lib/evaluator/openai.ts:160-178 | from any call on, the result is `null` exactly when every remaining reply is invalid output |
| OpenAIEvaluator.ExhaustedIffAllInvalid | checkrideready/lib/evaluator/openai.ts:178 | the result is `null` exactly when all three replies are invalid output |
| StubEvaluator.Clamp01 | checkrideready/lib/evaluator/stub.ts:30-32 | the result lies in [0, 1], is the identity inside it, and saturates outside it |
| StubEvaluator.MissingPoints | checkrideready/lib/evaluator/stub.ts:62-66 | there are at most four missing points |
| StubEvaluator.MissingPointsFaithful | checkrideready/lib/evaluator/stub.ts:62-66 | one missing point per failed check, each naming its check, in the order definition, source, process, safety |
| StubEvaluator.DecideCases | checkrideready/lib/evaluator/stub.ts:74-92 | FAIL exactly on a red flag; REMEDIATE exactly without one and under 18 words or 3+ missing; PROBE exactly in the band between; PASS exactly with no red flag, 40+ words and nothing missing |
| StubEvaluator.DecideMonotone | checkrideready/lib/evaluator/stub.ts:80-92 | a longer answer or one with fewer failed checks is never graded more severely |
| StubEvaluator.DeltaFallsWithSeverity | checkrideready/lib/evaluator/stub.ts:68-92 | a more severe verdict carries a strictly lower recommended delta |
| StubEvaluator.ProbeQuestionShape | checkrideready/lib/evaluator/stub.ts:98 | the follow-up question is non-empty, starts with the fixed prefix and task code, ends with the fixed suffix, and contains the focus |
| StubEvaluator.EvaluateStub | checkrideready/lib/evaluator/stub.ts:38-109 | the output keeps the input task code, its confidence lies in [0, 1], and it has at most four missing points |
| StubEvaluator.PassMeansComplete | checkrideready/lib/evaluator/stub.ts:68-92 | PASS exactly when there is no red flag, at least 40 words and no missing point |
| StubEvaluator.VerdictCarriesItsConstants | checkrideready/lib/evaluator/stub.ts:68-92 | every verdict comes with its own delta, confidence and feedback |
| StubEvaluator.FocusIsFirstFailedCheck | checkrideready/lib/evaluator/stub.ts:94-96 | the probe focus is the first failed check in the fixed order, or the default focus |
| StubEvaluator.ProbeFollowsFirstFailedCheck | checkrideready/lib/evaluator/stub.ts:94-98 | the follow-up question asks about the first failed check, or the default focus |
| StubEvaluator.RedFlagPhrasesTrimmed | checkrideready/lib/evaluator/stub.ts:18-28 | every red-flag phrase is non-empty, lower-case, with no whitespace at either end |
| StubEvaluator.StubVerdict | checkrideready/lib/evaluator/stub.ts:38-92 | the verdict is the decision table applied to the red-flag test, word count and number of failed checks of the trimmed answer |
| StubEvaluator.RedFlagSurvivesTrim | checkrideready/lib/evaluator/stub.ts:39-60 | a red-flag phrase in the answer, in any ASCII letter case, is found by the evaluator's test on the trimmed, lower-cased answer |
| StubEvaluator.RedFlagFails | checkrideready/lib/evaluator/stub.ts:60-79 | such an answer is graded FAIL with delta -1.0, whatever the other checks say |
| StubEvaluator.NoRedFlagInEmpty | checkrideready/lib/evaluator/stub.ts:18-28 | no red-flag phrase occurs in the empty text |
| StubEvaluator.BlankAnswerRemediates | checkrideready/lib/evaluator/stub.ts:39-85 | a missing, empty or whitespace-only answer is graded REMEDIATE |
| Database.NextAccessError | checkrideready/app/api/sessions/next/route.ts:29-52 | the route proceeds exactly when the id is given, the session exists, the caller owns it and it is active; otherwise it answers 400 for a missing id, 404 for an absent session, 403 for another user's session and 400 for an inactive one, the first failing check deciding |
| Database.SubmitAccessError | checkrideready/app/api/answer/submit/route.ts:68-101 | the route proceeds exactly when all three fields are non-empty, the session exists, is the caller's and is active, and the question exists; otherwise 400 for a missing field, 404 for an absent session, 403 for another user's, 400 for an inactive one, and 404 "Question not found" exactly when the session checks pass and the question does not exist |
| Database.SubmittedProbeIdRejected | checkrideready/app/api/answer/submit/route.ts:93-101 | when no question id carries the probe marker, an answer submitted under a probe id to a valid session is refused with 404 "Question not found" |
| Database.Store.Start | checkrideready/app/api/sessions/start/route.ts:13-36 | an invalid mode gives 400 and no row; a valid one inserts the initial row under the fresh id, owned by the caller, and returns that id; the invariant is kept |
| Database.Store.ServeBase | checkrideready/app/api/sessions/next/route.ts:99-153 | a question is chosen exactly when the mode has one; it has the mode and is outside the recent list whenever such a question exists; only that session row changes, as serving demands |
| Database.Store.Next | checkrideready/app/api/sessions/next/route.ts:24-164 | access errors change nothing; a due probe with its base row is served without a write; otherwise a base question is served and recorded, or 404 with no write when the mode has none; the invariant is kept |
| Database.Store.LegacyNext | checkrideready/app/api/session/next/route.ts:18-130 | the same access checks, then always the base path: never a probe, counter reset, recent list updated, or 404 with no write |
| Database.Store.Submit | checkrideready/app/api/answer/submit/route.ts:61-193 | access errors write nothing; otherwise exactly one attempt is appended with the evaluator's result, counts and confidence, the skill row is upserted, and the session records the verdict, counter and question; the invariant is kept |
| SessionFlow.ReplayKeepsInvariant | checkrideready/app/api/sessions/next/route.ts:143-153 | any sequence of served base questions and graded answers keeps the session invariant and never changes the stored follow-up question |
| SessionFlow.StartedSessionNeverProbes | checkrideready/app/api/sessions/next/route.ts:71 | a session created by the start route is never served a probe, whatever requests follow |
| SessionFlow.NonProbeVerdictEndsProbing | checkrideready/app/api/answer/submit/route.ts:167-171 | after PASS, REMEDIATE or FAIL no probe is due |
| SessionFlow.ProbeDueAfterSubmit | checkrideready/app/api/answer/submit/route.ts:167-171 | after a graded answer a probe is due exactly when the verdict was PROBE, the maximum is at least 1, and no new base question is forced |
| SessionFlow.ProbeStreakNeverEnds | checkrideready/app/api/answer/submit/route.ts:169 | after any number k >= 1 of PROBE verdicts a probe is still due and the counter is min(max, count + k) |

## Left out

- Database I/O (`lib/db.ts`), the client-side fetch helper (`lib/http.ts`), the results and list routes (their logic is SQL aggregation), and the React pages: not part of the session core.
- `runOpenAI`: the HTTP call, API key and response schema are replaced by an oracle, the sequence of its three replies, each a content string or a failed call.
- The system prompt, the model name and the `response_format` JSON schema sent with every call are not modelled. They shape what the service replies, but the outcome is stated for every sequence of replies, whatever they induce. Each call's user message is modelled.
- `ORDER BY RAND()`, `crypto.randomUUID` and `NOW()`: a nondeterministic choice, a fresh id passed in by the caller, and nothing (`last_seen_at` is not modelled).
- `JSON.parse`, `Number(string)` and `JSON.stringify`: the parser and string-to-number conversion are parameters. `Number` of a non-empty array counts as NaN. A stored recent list that parses to an array with non-string items is not modelled: every write stores an array of ids.
- IEEE floating point: confidences, deltas and mastery are real numbers. Rounding of `mastery + delta` is not modelled.
- The regular expressions of the rubric grader's feature checks are parameters, not a regex engine.
- `toLowerCase` is modelled for ASCII letters only. Other Unicode case mappings are not modelled.
- `getUserId` is the constant "demo-user".
- Concurrency: the three writes of the submit route are not atomic, and interleaved requests are not modelled. Each route method is one atomic step.
- SQL string comparison collation: ids and modes are compared exactly.
- Database.Store.Submit, AnswerSubmit.StubEvaluate and StubEvaluator.EvaluateStub: request fields are modelled as strings. In the source a truthy non-string `answer` (a number, say) passes the submit route's emptiness check and both lookups, and `answer.trim()` then throws, so the route fails with a 500 and writes nothing. A non-string `userAnswer` makes `evaluateStub` throw the same way. `Option<string>` cannot express either case.
- The `GET` handlers that answer 405, and the request-body parse failure (treated as an empty body, which gives the 400 of a missing field).
