/**
 * The deterministic rubric grader of `lib/evaluator/stub.ts`: four feature checks on
 * the lower-cased answer, a red-flag phrase list, the word count, and a decision table
 * over the three that yields the verdict, its confidence, feedback and mastery delta,
 * the missing points and a follow-up question.
 */
module StubEvaluator {
  import opened Wrappers
  import opened Text
  import opened Verdicts

  /** The four regular-expression tests the evaluator runs on the lower-cased answer
      (definition, source, process, safety). The regular expressions are not modelled. */
  datatype FeatureChecks = FeatureChecks(
    definition: string -> bool,
    source: string -> bool,
    process: string -> bool,
    safety: string -> bool)

  /** `EvaluateInput` of the stub: the answer may be `null` or `undefined`. */
  datatype StubInput = StubInput(userAnswer: Option<string>, acsTaskCode: string)

  /** `EvaluationOutput`. */
  datatype StubOutput = StubOutput(
    result: ResultCode,
    confidence: real,
    feedback: string,
    missingPoints: seq<string>,
    probeQuestion: string,
    recommendedDelta: real,
    acsTaskCode: string)

  /** `RED_FLAG_PHRASES`: wording that suggests skipping a required check. */
  const RedFlagPhrases: seq<string> := [
    "doesn't matter", "doesnt matter", "optional", "ignore", "always fine",
    "never check", "skip checklist", "don't check", "dont check"
  ]

  const DefinitionPoint: string := "State a crisp definition first."
  const SourcePoint: string := "Cite a source (FAR/AIM/ACS/POH) for authority."
  const ProcessPoint: string := "Give step-by-step process in order."
  const SafetyPoint: string := "Explain safety risk and mitigation."

  /** The focus of the follow-up question when no check failed. */
  const DefaultFocus: string :=
    "Tighten your answer with clearer source, ordered process, and risk mitigation."

  const ProbePrefix: string := "Follow-up on "
  const ProbeSuffix: string :=
    " In 4-6 sentences, answer using definition -> source -> process -> safety/risk."

  /** The stub's `clamp01`: `Math.max(0, Math.min(1, n))`. */
  function Clamp01(n: real): (r: real)
    ensures 0.0 <= r <= 1.0
    ensures 0.0 <= n <= 1.0 ==> r == n
    ensures n < 0.0 ==> r == 0.0
    ensures n > 1.0 ==> r == 1.0
  {
    var m := if 1.0 < n then 1.0 else n;
    if 0.0 < m then m else 0.0
  }

  /** The answer the evaluator works on: `(userAnswer || "").trim()`. */
  function RawAnswer(answer: Option<string>): string {
    Trim(if Truthy(answer) then answer.value else "")
  }

  /** The missing points: one per failed check, in the order definition, source,
      process, safety. */
  function MissingPoints(checks: FeatureChecks, lower: string): (m: seq<string>)
    ensures |m| <= 4
  {
    (if !checks.definition(lower) then [DefinitionPoint] else []) +
    (if !checks.source(lower) then [SourcePoint] else []) +
    (if !checks.process(lower) then [ProcessPoint] else []) +
    (if !checks.safety(lower) then [SafetyPoint] else [])
  }

  /** The position of a missing point in the fixed order of the checks. */
  function PointRank(point: string): nat {
    if point == DefinitionPoint then 0
    else if point == SourcePoint then 1
    else if point == ProcessPoint then 2
    else 3
  }

  /** How many of the four checks failed. */
  function FailedChecks(checks: FeatureChecks, lower: string): nat {
    (if checks.definition(lower) then 0 else 1) + (if checks.source(lower) then 0 else 1) +
    (if checks.process(lower) then 0 else 1) + (if checks.safety(lower) then 0 else 1)
  }

  /** Each missing point names exactly one failed check, their number is the number of
      failed checks, and they come in the fixed order of the checks. */
  lemma MissingPointsFaithful(checks: FeatureChecks, lower: string)
    ensures var m := MissingPoints(checks, lower);
      && |m| == FailedChecks(checks, lower)
      && (DefinitionPoint in m <==> !checks.definition(lower))
      && (SourcePoint in m <==> !checks.source(lower))
      && (ProcessPoint in m <==> !checks.process(lower))
      && (SafetyPoint in m <==> !checks.safety(lower))
      && forall i, j | 0 <= i < j < |m| :: PointRank(m[i]) < PointRank(m[j])
  {
    assert |DefinitionPoint| == 31 && |SourcePoint| == 46 && ProcessPoint[0] != SafetyPoint[0];
  }

  /** The decision table: a red flag fails the answer whatever else holds; then a thin
      answer (under 18 words, or three or more checks failed) is sent to remediation;
      then an answer under 40 words or with any check failed is probed; else it passes. */
  function Decide(redFlag: bool, words: nat, missing: nat): ResultCode {
    if redFlag then FAIL
    else if words < 18 || missing >= 3 then REMEDIATE
    else if words < 40 || missing >= 1 then PROBE
    else PASS
  }

  /** Each verdict of the table, by the inputs that lead to it. */
  lemma DecideCases(redFlag: bool, words: nat, missing: nat)
    ensures Decide(redFlag, words, missing) == FAIL <==> redFlag
    ensures Decide(redFlag, words, missing) == REMEDIATE <==> !redFlag && (words < 18 || missing >= 3)
    ensures Decide(redFlag, words, missing) == PROBE <==>
      !redFlag && words >= 18 && missing < 3 && (words < 40 || missing >= 1)
    ensures Decide(redFlag, words, missing) == PASS <==> !redFlag && words >= 40 && missing == 0
  {
  }

  /** A longer answer, or one with fewer failed checks, is never graded more severely. */
  lemma DecideMonotone(redFlag: bool, w1: nat, w2: nat, m1: nat, m2: nat)
    requires w1 <= w2 && m2 <= m1
    ensures Severity(Decide(redFlag, w2, m2)) <= Severity(Decide(redFlag, w1, m1))
  {
  }

  /** The recommended mastery change each verdict carries. */
  function RecommendedDelta(r: ResultCode): real {
    match r
    case PASS => 0.6
    case PROBE => 0.2
    case REMEDIATE => -0.6
    case FAIL => -1.0
  }

  /** The confidence each verdict carries, before clamping. */
  function VerdictConfidence(r: ResultCode): real {
    match r
    case PASS => 0.72
    case PROBE => 0.66
    case REMEDIATE => 0.82
    case FAIL => 0.9
  }

  function VerdictFeedback(r: ResultCode): string {
    match r
    case PASS => "Solid structure. Keep tightening references and keep your process safety-first."
    case PROBE => "Partially correct. Add missing structure and be more specific with source and risk reasoning."
    case REMEDIATE =>
      "Answer is too thin for checkride depth. Rebuild it with definition, authority, process, and safety implications."
    case FAIL =>
      "Unsafe reasoning detected. Re-answer with explicit legal source, checklist process, and risk controls."
  }

  /** The more severe the verdict, the lower the recommended delta. */
  lemma DeltaFallsWithSeverity(r1: ResultCode, r2: ResultCode)
    requires Severity(r1) < Severity(r2)
    ensures RecommendedDelta(r2) < RecommendedDelta(r1)
  {
  }

  /** `missing[0] || default`: the first missing point, or the default focus. */
  function ProbeFocus(missing: seq<string>): string {
    if |missing| > 0 && missing[0] != "" then missing[0] else DefaultFocus
  }

  function ProbeQuestion(acsTaskCode: string, focus: string): string {
    ProbePrefix + acsTaskCode + ": " + focus + ProbeSuffix
  }

  /** The follow-up question names the task code and the focus, between a fixed prefix and a
      fixed suffix, so it is never empty. */
  lemma ProbeQuestionShape(acsTaskCode: string, focus: string)
    ensures var q := ProbeQuestion(acsTaskCode, focus);
      && q != ""
      && ProbePrefix + acsTaskCode + ": " <= q
      && q[|q| - |ProbeSuffix|..] == ProbeSuffix
      && Contains(q, acsTaskCode)
      && Contains(q, focus)
  {
    var q := ProbeQuestion(acsTaskCode, focus);
    var i := |ProbePrefix|;
    assert q[i..i + |acsTaskCode|] == acsTaskCode;
    assert OccursAt(q, acsTaskCode, i);
    var j := |ProbePrefix| + |acsTaskCode| + 2;
    assert q[j..j + |focus|] == focus;
    assert OccursAt(q, focus, j);
  }

  /** `evaluateStub`. */
  function EvaluateStub(checks: FeatureChecks, input: StubInput): (out: StubOutput)
    ensures out.acsTaskCode == input.acsTaskCode
    ensures 0.0 <= out.confidence <= 1.0
    ensures |out.missingPoints| <= 4
  {
    var raw := RawAnswer(input.userAnswer);
    var lower := ToLower(raw);
    var words := WordCount(raw);
    var redFlag := ContainsAny(lower, RedFlagPhrases);
    var missing := MissingPoints(checks, lower);
    var result := Decide(redFlag, words, |missing|);
    StubOutput(
      result,
      Clamp01(VerdictConfidence(result)),
      VerdictFeedback(result),
      missing,
      ProbeQuestion(input.acsTaskCode, ProbeFocus(missing)),
      RecommendedDelta(result),
      input.acsTaskCode)
  }

  /** A passing answer has no red flag, at least 40 words and no missing point. */
  lemma PassMeansComplete(checks: FeatureChecks, input: StubInput)
    ensures var out := EvaluateStub(checks, input); var raw := RawAnswer(input.userAnswer);
      out.result == PASS <==>
        !ContainsAny(ToLower(raw), RedFlagPhrases) && WordCount(raw) >= 40 && out.missingPoints == []
  {
    var raw := RawAnswer(input.userAnswer);
    var lower := ToLower(raw);
    StubVerdict(checks, input);
    MissingPointsFaithful(checks, lower);
    DecideCases(ContainsAny(lower, RedFlagPhrases), WordCount(raw), FailedChecks(checks, lower));
  }

  /** Every verdict comes with its own delta, confidence and feedback. */
  lemma VerdictCarriesItsConstants(checks: FeatureChecks, input: StubInput)
    ensures var out := EvaluateStub(checks, input);
      && out.recommendedDelta == RecommendedDelta(out.result)
      && out.confidence == VerdictConfidence(out.result)
      && out.feedback == VerdictFeedback(out.result)
  {
  }

  /** The focus of the follow-up question is the first failed check in the fixed order,
      or the default focus when every check passed. */
  function FirstFailedFocus(checks: FeatureChecks, lower: string): string {
    if !checks.definition(lower) then DefinitionPoint
    else if !checks.source(lower) then SourcePoint
    else if !checks.process(lower) then ProcessPoint
    else if !checks.safety(lower) then SafetyPoint
    else DefaultFocus
  }

  lemma FocusIsFirstFailedCheck(checks: FeatureChecks, lower: string)
    ensures ProbeFocus(MissingPoints(checks, lower)) == FirstFailedFocus(checks, lower)
  {
    var m := MissingPoints(checks, lower);
    if !checks.definition(lower) {
      assert m[0] == DefinitionPoint;
    } else if !checks.source(lower) {
      assert m[0] == SourcePoint;
    } else if !checks.process(lower) {
      assert m[0] == ProcessPoint;
    } else if !checks.safety(lower) {
      assert m == [SafetyPoint];
    } else {
      assert m == [];
    }
  }

  /** The follow-up question asks about the first failed check in the fixed order, or about
      the default focus when every check passed. */
  lemma ProbeFollowsFirstFailedCheck(checks: FeatureChecks, input: StubInput)
    ensures EvaluateStub(checks, input).probeQuestion ==
      ProbeQuestion(input.acsTaskCode, FirstFailedFocus(checks, ToLower(RawAnswer(input.userAnswer))))
  {
    var lower := ToLower(RawAnswer(input.userAnswer));
    FocusIsFirstFailedCheck(checks, lower);
  }

  /** Every phrase of the red-flag list is lower-case and neither starts nor ends with
      whitespace. */
  lemma RedFlagPhrasesTrimmed(k: nat)
    requires k < |RedFlagPhrases|
    ensures RedFlagPhrases[k] != [] && Trimmed(RedFlagPhrases[k])
    ensures ToLower(RedFlagPhrases[k]) == RedFlagPhrases[k]
  {
  }

  /** The verdict of `evaluateStub` is the decision table applied to the red-flag test,
      the word count and the number of failed checks of the trimmed answer. */
  lemma StubVerdict(checks: FeatureChecks, input: StubInput)
    ensures var raw := RawAnswer(input.userAnswer); var lower := ToLower(raw);
      EvaluateStub(checks, input).result ==
        Decide(ContainsAny(lower, RedFlagPhrases), WordCount(raw), FailedChecks(checks, lower))
  {
    MissingPointsFaithful(checks, ToLower(RawAnswer(input.userAnswer)));
  }

  /** A red-flag phrase in the answer, in any letter case, is still found in the trimmed,
      lower-cased answer the evaluator tests. */
  lemma RedFlagSurvivesTrim(answer: string, k: nat)
    requires k < |RedFlagPhrases| && Contains(ToLower(answer), RedFlagPhrases[k])
    ensures ContainsAny(ToLower(RawAnswer(Some(answer))), RedFlagPhrases)
  {
    RedFlagPhrasesTrimmed(k);
    ContainsAnySurvivesTrim(answer, RedFlagPhrases, k);
    assert answer != "" by {
      var o :| OccursAt(ToLower(answer), RedFlagPhrases[k], o);
    }
  }

  /** A red-flag phrase anywhere in the answer, in any letter case, fails it. */
  lemma RedFlagFails(checks: FeatureChecks, answer: string, acsTaskCode: string, k: nat)
    requires k < |RedFlagPhrases| && Contains(ToLower(answer), RedFlagPhrases[k])
    ensures EvaluateStub(checks, StubInput(Some(answer), acsTaskCode)).result == FAIL
    ensures EvaluateStub(checks, StubInput(Some(answer), acsTaskCode)).recommendedDelta == -1.0
  {
    RedFlagSurvivesTrim(answer, k);
    StubVerdict(checks, StubInput(Some(answer), acsTaskCode));
  }

  /** No red-flag phrase occurs in the empty text. */
  lemma NoRedFlagInEmpty()
    ensures !ContainsAny([], RedFlagPhrases)
  {
    forall k | 0 <= k < |RedFlagPhrases| ensures !Contains([], RedFlagPhrases[k]) {
      RedFlagPhrasesTrimmed(k);
      assert forall i :: !OccursAt([], RedFlagPhrases[k], i);
    }
  }

  /** A missing, empty or whitespace-only answer is sent to remediation. */
  lemma BlankAnswerRemediates(checks: FeatureChecks, input: StubInput)
    requires input.userAnswer.None? || AllSpace(input.userAnswer.value)
    ensures EvaluateStub(checks, input).result == REMEDIATE
  {
    var a := if Truthy(input.userAnswer) then input.userAnswer.value else "";
    TrimEmptyIffSpaces(a);
    assert RawAnswer(input.userAnswer) == [];
    assert ToLower([]) == [];
    NoRedFlagInEmpty();
    StubVerdict(checks, input);
  }
}
