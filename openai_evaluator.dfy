/**
 * The language-model evaluation pipeline of `lib/evaluator/openai.ts`: a strict
 * validator and normaliser for the model's JSON reply, and a loop that asks at
 * most three times (one call and two corrective retries) and gives up with
 * `null`. The remote call is an oracle: the reply it gives on each call, in order.
 */
module OpenAIEvaluator {
  import opened Wrappers
  import opened Text
  import opened Json
  import opened Verdicts

  /** `OpenAIEvaluation`. */
  datatype Evaluation = Evaluation(
    result: ResultCode,
    confidence: real,
    feedback: string,
    missingPoints: seq<string>,
    probeQuestion: Option<string>,
    acsTaskCode: string)

  /** `EvaluateInput`. */
  datatype EvaluateInput = EvaluateInput(questionStem: string, studentAnswer: string, acsTaskCode: string)

  /** What one call of the remote service gives back: its message content, or a thrown
      error (no API key, a non-2xx status, empty content). A real call never yields
      `Reply("")`, since empty content throws; the lemmas below hold for such replies too. */
  datatype OracleReply = Reply(content: string) | CallFailed

  /** How `evaluateWithOpenAI` settles: a validated evaluation, `null` once every
      attempt produced invalid output, or the error a failed call throws. */
  datatype Outcome = Accepted(evaluation: Evaluation) | Exhausted | OracleError

  /** One first call plus two retries. */
  const MaxCalls: nat := 3

  /** `isResult`: the value is one of the four result-code strings. */
  predicate IsResult(v: Option<Json>)
    ensures IsResult(v) <==>
      v == Some(JString("PASS")) || v == Some(JString("PROBE")) ||
      v == Some(JString("REMEDIATE")) || v == Some(JString("FAIL"))
  {
    v.Some? && v.value.JString? && FromName(v.value.s).Some?
  }

  /** `clamp01`: 0 for a non-finite number, otherwise the number saturated into [0, 1]. */
  function Clamp01(n: Num): (r: real)
    ensures 0.0 <= r <= 1.0
    ensures n.NonFinite? ==> r == 0.0
    ensures n.Finite? && 0.0 <= n.value <= 1.0 ==> r == n.value
    ensures n.Finite? && n.value < 0.0 ==> r == 0.0
    ensures n.Finite? && n.value > 1.0 ==> r == 1.0
  {
    if n.NonFinite? then 0.0
    else
      var m := if n.value < 1.0 then n.value else 1.0;
      if 0.0 < m then m else 0.0
  }

  /** Every element of a JSON array is a string. */
  predicate AllStrings(items: seq<Json>) {
    forall k | 0 <= k < |items| :: items[k].JString?
  }

  function Strings(items: seq<Json>): (r: seq<string>)
    requires AllStrings(items)
    ensures |r| == |items| && forall k | 0 <= k < |items| :: items[k] == JString(r[k])
  {
    if items == [] then [] else [items[0].s] + Strings(items[1..])
  }

  /** `xs.map((x) => x.trim()).filter(Boolean)`. */
  function NormalizePoints(xs: seq<string>): (r: seq<string>)
    ensures |r| <= |xs|
    ensures forall k | 0 <= k < |r| :: r[k] != "" && Trimmed(r[k])
  {
    if xs == [] then []
    else
      var t := Trim(xs[0]);
      (if t == "" then [] else [t]) + NormalizePoints(xs[1..])
  }

  /** Normalising a concatenation normalises each part: the order of the points is kept. */
  lemma {:induction false} NormalizePointsAppend(xs: seq<string>, ys: seq<string>)
    ensures NormalizePoints(xs + ys) == NormalizePoints(xs) + NormalizePoints(ys)
  {
    if xs == [] {
      assert xs + ys == ys;
    } else {
      var t := Trim(xs[0]);
      assert (xs + ys)[0] == xs[0] && (xs + ys)[1..] == xs[1..] + ys;
      NormalizePointsAppend(xs[1..], ys);
      calc {
        NormalizePoints(xs + ys);
        (if t == "" then [] else [t]) + NormalizePoints(xs[1..] + ys);
        (if t == "" then [] else [t]) + (NormalizePoints(xs[1..]) + NormalizePoints(ys));
      }
    }
  }

  /** Some point of `xs` trims to `p`. */
  ghost predicate TrimsTo(xs: seq<string>, p: string) {
    exists k | 0 <= k < |xs| :: Trim(xs[k]) == p
  }

  lemma TrimsToCons(xs: seq<string>, p: string)
    requires xs != []
    ensures TrimsTo(xs, p) <==> Trim(xs[0]) == p || TrimsTo(xs[1..], p)
  {
    if TrimsTo(xs, p) && Trim(xs[0]) != p {
      var k :| 0 <= k < |xs| && Trim(xs[k]) == p;
      assert xs[1..][k - 1] == xs[k];
    }
    if TrimsTo(xs[1..], p) {
      var k :| 0 <= k < |xs[1..]| && Trim(xs[1..][k]) == p;
      assert xs[k + 1] == xs[1..][k];
    }
  }

  /** A point survives exactly when it is the non-blank trimmed form of some input point. */
  lemma {:induction false} NormalizePointsMembership(xs: seq<string>, p: string)
    ensures p in NormalizePoints(xs) <==> p != "" && TrimsTo(xs, p)
  {
    if xs != [] {
      var t := Trim(xs[0]);
      var rest := NormalizePoints(xs[1..]);
      assert NormalizePoints(xs) == (if t == "" then [] else [t]) + rest;
      NormalizePointsMembership(xs[1..], p);
      TrimsToCons(xs, p);
    }
  }

  /** Normalising twice changes nothing. */
  lemma {:induction false} NormalizePointsIdempotent(xs: seq<string>)
    ensures NormalizePoints(NormalizePoints(xs)) == NormalizePoints(xs)
  {
    if xs != [] {
      var t := Trim(xs[0]);
      var rest := NormalizePoints(xs[1..]);
      NormalizePointsIdempotent(xs[1..]);
      if t != "" {
        assert [t] + rest == [t] + rest;
        NormalizePointsAppend([t], rest);
        assert NormalizePoints([t]) == [t] by {
          assert Trim(t) == t;
          assert [t][1..] == [];
        }
      } else {
        assert [] + rest == rest;
      }
    }
  }

  /** The `probe_question` value the validator keeps: a non-blank string, trimmed;
      anything else (null or blank) becomes null. */
  function NormalizeProbe(v: Json): Option<string> {
    if v.JString? && Trim(v.s) != "" then Some(Trim(v.s)) else None
  }

  /** `typeof parsed.confidence === "number" ? parsed.confidence : Number(parsed.confidence)`. */
  function ConfidenceRaw(rt: Runtime, v: Option<Json>): Num {
    if v.Some? && v.value.JNumber? then v.value.n else ToNumber(rt, v)
  }

  /** The fields of a validated evaluation other than its task code are in normal form. */
  ghost predicate Normalized(e: Evaluation) {
    && 0.0 <= e.confidence <= 1.0
    && Trimmed(e.feedback)
    && (forall k | 0 <= k < |e.missingPoints| :: e.missingPoints[k] != "" && Trimmed(e.missingPoints[k]))
    && (e.probeQuestion.Some? ==> e.probeQuestion.value != "" && Trimmed(e.probeQuestion.value))
  }

  /** The fields a reply must carry, with their types: a result code, a string feedback,
      an array of strings as missing points, a string or null probe question, and a string
      task code. The confidence is not checked: it is coerced. */
  ghost predicate WellTyped(parsed: Json) {
    && IsResult(Get(parsed, "result"))
    && IsString(Get(parsed, "feedback"))
    && Get(parsed, "missing_points").Some? && Get(parsed, "missing_points").value.JArray?
    && AllStrings(Get(parsed, "missing_points").value.items)
    && (IsString(Get(parsed, "probe_question")) || Get(parsed, "probe_question") == Some(JNull))
    && IsString(Get(parsed, "acs_task_code"))
  }

  /** The checks of `parseEvaluation` once the text has parsed, in the order the source
      makes them: an evaluation exactly when every field has its type. */
  function Validate(rt: Runtime, parsed: Json): (r: Option<Evaluation>)
    ensures r.Some? <==> WellTyped(parsed)
  {
    var result := Get(parsed, "result");
    var feedback := Get(parsed, "feedback");
    var points := Get(parsed, "missing_points");
    var probe := Get(parsed, "probe_question");
    var code := Get(parsed, "acs_task_code");
    if !IsResult(result) then None
    else if !IsString(feedback) then None
    else if !(points.Some? && points.value.JArray?) then None
    else if !AllStrings(points.value.items) then None
    else if !(IsString(probe) || probe == Some(JNull)) then None
    else if !IsString(code) then None
    else
      Some(Evaluation(
        FromName(result.value.s).value,
        Clamp01(ConfidenceRaw(rt, Get(parsed, "confidence"))),
        Trim(feedback.value.s),
        NormalizePoints(Strings(points.value.items)),
        NormalizeProbe(probe.value),
        Trim(code.value.s)))
  }

  /** `parseEvaluation`: `null` when the text does not parse or a field has the wrong type. */
  function ParseEvaluation(rt: Runtime, jsonText: string): (r: Option<Evaluation>)
    ensures r.Some? <==> rt.parse(jsonText).Some? && WellTyped(rt.parse(jsonText).value)
  {
    match rt.parse(jsonText)
    case None => None
    case Some(parsed) => Validate(rt, parsed)
  }

  /** Every field of a validated evaluation is in normal form. */
  lemma ParseEvaluationNormalized(rt: Runtime, jsonText: string)
    requires ParseEvaluation(rt, jsonText).Some?
    ensures Normalized(ParseEvaluation(rt, jsonText).value)
    ensures Trimmed(ParseEvaluation(rt, jsonText).value.acsTaskCode)
  {
  }

  /** What a successful validation keeps of the reply: its result code, its feedback and
      task code trimmed, its probe question trimmed unless that is null or blank, and its
      confidence coerced to a number and clamped. */
  lemma ValidateKeepsFields(rt: Runtime, parsed: Json)
    requires WellTyped(parsed)
    ensures var e := Validate(rt, parsed).value;
      && Get(parsed, "result") == Some(JString(Name(e.result)))
      && e.feedback == Trim(Get(parsed, "feedback").value.s)
      && e.acsTaskCode == Trim(Get(parsed, "acs_task_code").value.s)
      && (e.probeQuestion.None? <==>
            Get(parsed, "probe_question") == Some(JNull) || AllSpace(Get(parsed, "probe_question").value.s))
      && (e.probeQuestion.Some? ==> e.probeQuestion.value == Trim(Get(parsed, "probe_question").value.s))
    ensures var e := Validate(rt, parsed).value; var c := Get(parsed, "confidence");
      && e.confidence == Clamp01(ConfidenceRaw(rt, c))
      && (c.Some? && c.value.JNumber? ==> e.confidence == Clamp01(c.value.n))
      && (c.Some? && c.value.JString? ==> e.confidence == Clamp01(rt.stringToNumber(c.value.s)))
      && (c.None? || c == Some(JNull) ==> e.confidence == 0.0)
  {
    var probe := Get(parsed, "probe_question").value;
    if probe.JString? {
      TrimEmptyIffSpaces(probe.s);
    }
  }

  /** The missing points of a validated evaluation are exactly the non-blank trimmed
      strings of the reply's array. */
  lemma ValidateKeepsPoints(rt: Runtime, parsed: Json, p: string)
    requires WellTyped(parsed)
    ensures var items := Get(parsed, "missing_points").value.items;
      p in Validate(rt, parsed).value.missingPoints <==>
        p != "" && exists v | v in items :: v.JString? && Trim(v.s) == p
  {
    var items := Get(parsed, "missing_points").value.items;
    var xs := Strings(items);
    assert Validate(rt, parsed).value.missingPoints == NormalizePoints(xs);
    NormalizePointsMembership(xs, p);
    if p in NormalizePoints(xs) {
      assert TrimsTo(xs, p);
      var k :| 0 <= k < |xs| && Trim(xs[k]) == p;
      assert items[k] in items && items[k].JString? && Trim(items[k].s) == p;
    }
    if p != "" && exists v | v in items :: v.JString? && Trim(v.s) == p {
      var v :| v in items && v.JString? && Trim(v.s) == p;
      var k :| 0 <= k < |items| && items[k] == v;
      assert Trim(xs[k]) == p;
      assert TrimsTo(xs, p);
    }
  }

  /** An empty (or blank) feedback string is accepted, and comes out empty. */
  lemma BlankFeedbackAccepted(rt: Runtime, parsed: Json)
    requires WellTyped(parsed)
    requires AllSpace(Get(parsed, "feedback").value.s)
    ensures Validate(rt, parsed).Some? && Validate(rt, parsed).value.feedback == ""
  {
    TrimEmptyIffSpaces(Get(parsed, "feedback").value.s);
  }

  /** The first user message: the original context. */
  function BaseUserPrompt(input: EvaluateInput): string {
    "Question stem: " + input.questionStem + "\nACS task code: " + input.acsTaskCode +
    "\nStudent answer: " + input.studentAnswer
  }

  const RetryPreamble: string :=
    "Your previous output was invalid JSON for the required schema.\n" +
    "Fix it and return only valid JSON with the required keys.\n" +
    "Original context:\n"

  /** The user message of a retry: the original context, then the invalid output. */
  function RetryPrompt(base: string, raw: string): string {
    RetryPreamble + base + "\n\nInvalid output to fix:\n" + raw
  }

  /** A retry message carries the original context and ends with the output to fix. */
  lemma RetryPromptEmbeds(base: string, raw: string)
    ensures Contains(RetryPrompt(base, raw), base)
    ensures Contains(RetryPrompt(base, raw), raw)
    ensures raw <= RetryPrompt(base, raw)[|RetryPrompt(base, raw)| - |raw|..]
  {
    var m := RetryPrompt(base, raw);
    var i := |RetryPreamble|;
    assert m[i..i + |base|] == base;
    assert OccursAt(m, base, i);
    var j := |m| - |raw|;
    assert m[j..j + |raw|] == raw;
    assert OccursAt(m, raw, j);
  }

  /** The text of a reply; a failed call has none. */
  function ReplyText(reply: OracleReply): string {
    if reply.Reply? then reply.content else ""
  }

  /** The outcome once calls `0..k` have produced output that did not validate. */
  function EvaluateFrom(rt: Runtime, input: EvaluateInput, replies: seq<OracleReply>, k: nat): Outcome
    requires |replies| == MaxCalls && k <= MaxCalls
    decreases MaxCalls - k
  {
    if k == MaxCalls then Exhausted
    else
      match replies[k]
      case CallFailed => OracleError
      case Reply(raw) =>
        match ParseEvaluation(rt, raw)
        case Some(e) => Accepted(e.(acsTaskCode := input.acsTaskCode))
        case None => EvaluateFrom(rt, input, replies, k + 1)
  }

  /** The outcome of `evaluateWithOpenAI` when the service gives `replies` in turn. */
  function Evaluate(rt: Runtime, input: EvaluateInput, replies: seq<OracleReply>): Outcome
    requires |replies| == MaxCalls
  {
    EvaluateFrom(rt, input, replies, 0)
  }

  /** How many calls are made in all, once `k` calls have produced invalid output. */
  function CallsFrom(rt: Runtime, replies: seq<OracleReply>, k: nat): (n: nat)
    requires |replies| == MaxCalls && k <= MaxCalls
    ensures k <= n <= MaxCalls
    ensures k < MaxCalls ==> k < n
    decreases MaxCalls - k
  {
    if k == MaxCalls then k
    else if replies[k].CallFailed? || ParseEvaluation(rt, replies[k].content).Some? then k + 1
    else CallsFrom(rt, replies, k + 1)
  }

  function Calls(rt: Runtime, replies: seq<OracleReply>): nat
    requires |replies| == MaxCalls
  {
    CallsFrom(rt, replies, 0)
  }

  /** The user message of call `k`: the original context first, then a retry message
      quoting the output of the call before. */
  function Message(input: EvaluateInput, replies: seq<OracleReply>, k: nat): string
    requires k <= |replies|
  {
    if k == 0 then BaseUserPrompt(input) else RetryPrompt(BaseUserPrompt(input), ReplyText(replies[k - 1]))
  }

  /** The user messages of the first `n` calls, in order. */
  function Transcript(input: EvaluateInput, replies: seq<OracleReply>, n: nat): (sent: seq<string>)
    requires n <= |replies|
    ensures |sent| == n
  {
    if n == 0 then [] else Transcript(input, replies, n - 1) + [Message(input, replies, n - 1)]
  }

  /** Message `k` of a transcript is the message of call `k`; every message after the first
      carries the original context. */
  lemma {:induction false} TranscriptMessages(input: EvaluateInput, replies: seq<OracleReply>, n: nat, k: nat)
    requires k < n <= |replies|
    ensures Transcript(input, replies, n)[k] == Message(input, replies, k)
    ensures Contains(Transcript(input, replies, n)[k], BaseUserPrompt(input))
  {
    if k < n - 1 {
      TranscriptMessages(input, replies, n - 1, k);
    } else if k == 0 {
      assert OccursAt(BaseUserPrompt(input), BaseUserPrompt(input), 0);
    } else {
      RetryPromptEmbeds(BaseUserPrompt(input), ReplyText(replies[k - 1]));
    }
  }

  /** `evaluateWithOpenAI`: returns the outcome the specification gives, after sending
      exactly the messages of the transcript. */
  method EvaluateWithOpenAI(rt: Runtime, input: EvaluateInput, replies: seq<OracleReply>)
    returns (outcome: Outcome, sent: seq<string>)
    requires |replies| == MaxCalls
    ensures outcome == Evaluate(rt, input, replies)
    ensures sent == Transcript(input, replies, Calls(rt, replies))
  {
    var base := BaseUserPrompt(input);
    sent := [base];
    var reply := replies[0];
    if reply.CallFailed? {
      return OracleError, sent;
    }
    var raw := reply.content;
    var parsed := ParseEvaluation(rt, raw);
    if parsed.Some? {
      return Accepted(parsed.value.(acsTaskCode := input.acsTaskCode)), sent;
    }
    for i := 0 to 2
      invariant sent == Transcript(input, replies, i + 1)
      invariant replies[i] == Reply(raw) && ParseEvaluation(rt, raw).None?
      invariant Evaluate(rt, input, replies) == EvaluateFrom(rt, input, replies, i + 1)
      invariant Calls(rt, replies) == CallsFrom(rt, replies, i + 1)
    {
      sent := sent + [RetryPrompt(base, raw)];
      reply := replies[i + 1];
      if reply.CallFailed? {
        return OracleError, sent;
      }
      raw := reply.content;
      parsed := ParseEvaluation(rt, raw);
      if parsed.Some? {
        return Accepted(parsed.value.(acsTaskCode := input.acsTaskCode)), sent;
      }
    }
    outcome := Exhausted;
  }

  /** Replies `j..k-1` were all invalid output: the outcome is decided from call `k` on. */
  lemma {:induction false} EvaluateSkipsInvalid(rt: Runtime, input: EvaluateInput, replies: seq<OracleReply>, j: nat, k: nat)
    requires |replies| == MaxCalls && j <= k <= MaxCalls
    requires forall i | j <= i < k :: replies[i].Reply? && ParseEvaluation(rt, replies[i].content).None?
    ensures EvaluateFrom(rt, input, replies, j) == EvaluateFrom(rt, input, replies, k)
    ensures CallsFrom(rt, replies, j) == CallsFrom(rt, replies, k)
    decreases k - j
  {
    if j < k {
      var raw := replies[j].content;
      assert replies[j] == Reply(raw) && ParseEvaluation(rt, raw).None?;
      assert EvaluateFrom(rt, input, replies, j) == EvaluateFrom(rt, input, replies, j + 1);
      assert CallsFrom(rt, replies, j) == CallsFrom(rt, replies, j + 1);
      EvaluateSkipsInvalid(rt, input, replies, j + 1, k);
    }
  }

  /** The evaluation returned is the first reply that validates, with the task code
      replaced by the caller's, and no call is made after it. */
  lemma AcceptedIsFirstValidReply(rt: Runtime, input: EvaluateInput, replies: seq<OracleReply>, k: nat)
    requires |replies| == MaxCalls && k < MaxCalls
    requires forall i | 0 <= i < k :: replies[i].Reply? && ParseEvaluation(rt, replies[i].content).None?
    requires replies[k].Reply? && ParseEvaluation(rt, replies[k].content).Some?
    ensures Evaluate(rt, input, replies) ==
      Accepted(ParseEvaluation(rt, replies[k].content).value.(acsTaskCode := input.acsTaskCode))
    ensures Calls(rt, replies) == k + 1
  {
    EvaluateSkipsInvalid(rt, input, replies, 0, k);
  }

  /** Whatever task code the reply echoed, an accepted evaluation carries the caller's,
      and its other fields are in normal form. */
  lemma {:induction false} AcceptedCarriesCallerCode(rt: Runtime, input: EvaluateInput, replies: seq<OracleReply>, k: nat)
    requires |replies| == MaxCalls && k <= MaxCalls
    requires EvaluateFrom(rt, input, replies, k).Accepted?
    ensures EvaluateFrom(rt, input, replies, k).evaluation.acsTaskCode == input.acsTaskCode
    ensures Normalized(EvaluateFrom(rt, input, replies, k).evaluation)
    decreases MaxCalls - k
  {
    if replies[k].Reply? && ParseEvaluation(rt, replies[k].content).None? {
      AcceptedCarriesCallerCode(rt, input, replies, k + 1);
    } else {
      ParseEvaluationNormalized(rt, replies[k].content);
    }
  }

  /** From call `k` on, the result is `null` exactly when every remaining reply is invalid output. */
  lemma {:induction false} ExhaustedFromIffAllInvalid(rt: Runtime, input: EvaluateInput, replies: seq<OracleReply>, k: nat)
    requires |replies| == MaxCalls && k <= MaxCalls
    ensures EvaluateFrom(rt, input, replies, k) == Exhausted <==>
      forall i | k <= i < MaxCalls :: replies[i].Reply? && ParseEvaluation(rt, replies[i].content).None?
    decreases MaxCalls - k
  {
    if k < MaxCalls {
      ExhaustedFromIffAllInvalid(rt, input, replies, k + 1);
    }
  }

  /** The result is `null` exactly when all three calls returned output that did not validate. */
  lemma ExhaustedIffAllInvalid(rt: Runtime, input: EvaluateInput, replies: seq<OracleReply>)
    requires |replies| == MaxCalls
    ensures Evaluate(rt, input, replies) == Exhausted <==>
      forall i | 0 <= i < MaxCalls :: replies[i].Reply? && ParseEvaluation(rt, replies[i].content).None?
  {
    ExhaustedFromIffAllInvalid(rt, input, replies, 0);
  }
}
