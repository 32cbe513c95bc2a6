/**
 * The decisions of `app/api/answer/submit/route.ts` that do not touch the store: the
 * inline placeholder grader, the mastery delta and skill upsert, and the new probe
 * counter and session fields after a graded answer.
 */
module AnswerSubmit {
  import opened Wrappers
  import opened Text
  import opened Verdicts
  import opened Records

  /** What the inline grader `stubEvaluate` returns. */
  datatype SubmitEvaluation = SubmitEvaluation(
    result: ResultCode,
    feedback: string,
    confidence: real,
    missing: nat,
    redFlags: nat)

  /** The route's own, shorter red-flag list. */
  const SubmitRedFlagPhrases: seq<string> :=
    ["doesn't matter", "optional", "ignore", "always fine", "never check"]

  const RedFlagFeedback: string :=
    "Red flag: your answer suggests skipping required safety/legal checks. Slow down and restate a safety-first process."
  const ThinFeedback: string :=
    "Too thin. Give a structured answer: what you check, where you verify it, and why it matters."
  const GoodFeedback: string :=
    "Good structure. Next time, add one or two concrete references (e.g., where in logs/reg you verify)."

  /** The number of words below which an answer without a red flag is probed. */
  const ProbeWordThreshold: nat := 25

  /** `stubEvaluate`: a red-flag phrase in the trimmed, lower-cased answer sends it to
      remediation; otherwise a short answer is probed and a long one passes. */
  function StubEvaluate(answer: string): (e: SubmitEvaluation)
    ensures e.result != FAIL
    ensures e.redFlags == (if e.result == REMEDIATE then 1 else 0)
    ensures 0.0 <= e.confidence <= 1.0
  {
    var a := Trim(answer);
    var words := WordCount(a);
    var redFlags: nat := if ContainsAny(ToLower(a), SubmitRedFlagPhrases) then 1 else 0;
    if redFlags > 0 then SubmitEvaluation(REMEDIATE, RedFlagFeedback, 0.8, 2, redFlags)
    else if words < ProbeWordThreshold then SubmitEvaluation(PROBE, ThinFeedback, 0.6, 3, 0)
    else SubmitEvaluation(PASS, GoodFeedback, 0.7, 1, 0)
  }

  /** Each verdict of the evaluator, by the inputs that lead to it, with the missing count,
      confidence and feedback it reports. */
  lemma StubEvaluateCases(answer: string)
    ensures var e := StubEvaluate(answer); var a := Trim(answer);
      var flagged := ContainsAny(ToLower(a), SubmitRedFlagPhrases);
      && (e.result == REMEDIATE <==> flagged)
      && (e.result == PROBE <==> !flagged && WordCount(a) < ProbeWordThreshold)
      && (e.result == PASS <==> !flagged && WordCount(a) >= ProbeWordThreshold)
      && e.missing == (match e.result case REMEDIATE => 2 case PROBE => 3 case _ => 1)
      && e.confidence == (match e.result case REMEDIATE => 0.8 case PROBE => 0.6 case _ => 0.7)
      && e.feedback == (match e.result case REMEDIATE => RedFlagFeedback case PROBE => ThinFeedback case _ => GoodFeedback)
  {
  }

  /** Every phrase of the route's red-flag list is lower-case, non-empty, and neither
      starts nor ends with whitespace. */
  lemma SubmitRedFlagPhrasesTrimmed(k: nat)
    requires k < |SubmitRedFlagPhrases|
    ensures SubmitRedFlagPhrases[k] != [] && Trimmed(SubmitRedFlagPhrases[k])
    ensures ToLower(SubmitRedFlagPhrases[k]) == SubmitRedFlagPhrases[k]
  {
  }

  /** A red-flag phrase anywhere in the answer, in any letter case, sends it to remediation. */
  lemma RedFlagRemediates(answer: string, k: nat)
    requires k < |SubmitRedFlagPhrases| && Contains(ToLower(answer), SubmitRedFlagPhrases[k])
    ensures StubEvaluate(answer).result == REMEDIATE
  {
    SubmitRedFlagPhrasesTrimmed(k);
    ContainsAnySurvivesTrim(answer, SubmitRedFlagPhrases, k);
    StubEvaluateCases(answer);
  }

  /** No red-flag phrase occurs in the empty text. */
  lemma NoSubmitRedFlagInEmpty()
    ensures !ContainsAny([], SubmitRedFlagPhrases)
  {
    forall k | 0 <= k < |SubmitRedFlagPhrases| ensures !Contains([], SubmitRedFlagPhrases[k]) {
      SubmitRedFlagPhrasesTrimmed(k);
      assert forall i :: !OccursAt([], SubmitRedFlagPhrases[k], i);
    }
  }

  /** An answer made only of whitespace gets past the route's emptiness check and is
      graded PROBE. */
  lemma BlankAnswerProbes(answer: string)
    requires AllSpace(answer)
    ensures StubEvaluate(answer).result == PROBE
  {
    TrimEmptyIffSpaces(answer);
    assert Trim(answer) == [];
    assert ToLower([]) == [];
    NoSubmitRedFlagInEmpty();
    StubEvaluateCases(answer);
  }

  /** `clamp(n, min, max)`: `Math.max(min, Math.min(max, n))`. */
  function Clamp(n: real, lo: real, hi: real): (r: real)
    ensures lo <= hi ==> lo <= r <= hi
    ensures lo <= n <= hi ==> r == n
    ensures n < lo ==> r == lo
    ensures lo <= hi < n ==> r == hi
  {
    var m := if hi < n then hi else n;
    if lo < m then m else lo
  }

  /** The mastery change of each verdict; it does not depend on the confidence. */
  function MasteryDelta(r: ResultCode): real {
    match r
    case PASS => 0.7
    case PROBE => 0.2
    case REMEDIATE => -0.6
    case FAIL => -1.0
  }

  /** The more severe the verdict, the lower the mastery delta: only the two passing-side
      verdicts raise mastery. */
  lemma MasteryDeltaFallsWithSeverity(r1: ResultCode, r2: ResultCode)
    requires Severity(r1) < Severity(r2)
    ensures MasteryDelta(r2) < MasteryDelta(r1)
    ensures MasteryDelta(r1) > 0.0 <==> r1 == PASS || r1 == PROBE
  {
  }

  /** The skill row after the upsert: a new row starts from the clamped delta and one
      attempt; an existing row moves by the delta within `[0, 5]` and counts one more
      attempt. A pass is counted only for PASS, a failure only for REMEDIATE and FAIL. */
  function SkillAfter(existing: Option<Skill>, r: ResultCode): (k: Skill)
    ensures 0.0 <= k.mastery <= 5.0
    ensures k.mastery == Clamp((if existing.Some? then existing.value.mastery else 0.0) + MasteryDelta(r), 0.0, 5.0)
    ensures k.attempts == (if existing.Some? then existing.value.attempts else 0) + 1
    ensures k.passes == (if existing.Some? then existing.value.passes else 0) + (if r == PASS then 1 else 0)
    ensures k.fails ==
      (if existing.Some? then existing.value.fails else 0) + (if r == REMEDIATE || r == FAIL then 1 else 0)
  {
    var delta := MasteryDelta(r);
    var passes: nat := if r == PASS then 1 else 0;
    var fails: nat := if r == REMEDIATE || r == FAIL then 1 else 0;
    match existing
    case None => Skill(Clamp(delta, 0.0, 5.0), 1, passes, fails)
    case Some(row) =>
      var m := row.mastery + delta;
      var greatest := if 0.0 < m then m else 0.0;
      var least := if 5.0 < greatest then 5.0 else greatest;
      Skill(least, row.attempts + 1, row.passes + passes, row.fails + fails)
  }

  /** The upsert keeps a skill row consistent: mastery on the scale and no more passes
      and failures than attempts. */
  lemma SkillAfterKeepsInvariant(existing: Option<Skill>, r: ResultCode)
    requires existing.Some? ==> SkillInvariant(existing.value)
    ensures SkillInvariant(SkillAfter(existing, r))
  {
  }

  /** Away from the ends of the scale mastery moves by exactly the delta, and a more
      severe verdict never leaves a higher mastery. */
  lemma MasteryFollowsDelta(k: Skill, r1: ResultCode, r2: ResultCode)
    requires 0.0 <= k.mastery <= 5.0
    ensures 0.0 <= k.mastery + MasteryDelta(r1) <= 5.0 ==>
      SkillAfter(Some(k), r1).mastery == k.mastery + MasteryDelta(r1)
    ensures Severity(r1) <= Severity(r2) ==> SkillAfter(Some(k), r2).mastery <= SkillAfter(Some(k), r1).mastery
  {
    if Severity(r1) < Severity(r2) {
      MasteryDeltaFallsWithSeverity(r1, r2);
    }
  }

  /** The new `probe_count_for_task`: one more, up to the maximum, after a PROBE, and 0
      after any other verdict. */
  function NextProbeCount(count: int, maxProbes: int, r: ResultCode): int {
    if r == PROBE then (if maxProbes < count + 1 then maxProbes else count + 1) else 0
  }

  /** The counter stays within `[0, max]`; after a PROBE it is positive when the maximum
      is, and it never passes the maximum however many PROBE verdicts follow. */
  lemma NextProbeCountInRange(count: int, maxProbes: int, r: ResultCode)
    requires 0 <= count <= maxProbes
    ensures 0 <= NextProbeCount(count, maxProbes, r) <= maxProbes
    ensures r == PROBE && maxProbes >= 1 ==> NextProbeCount(count, maxProbes, r) >= 1
    ensures r != PROBE ==> NextProbeCount(count, maxProbes, r) == 0
    ensures r == PROBE && count == maxProbes ==> NextProbeCount(count, maxProbes, r) == count
  {
  }

  /** The session after a graded answer: the verdict and feedback are recorded, the probe
      counter is recomputed, and the submitted question becomes the current one. */
  function AfterSubmit(s: Session, questionId: string, acsTaskCode: string, e: SubmitEvaluation): Session {
    s.(lastResult := Some(e.result),
       lastFeedback := Some(e.feedback),
       probeCount := NextProbeCount(s.probeCount, s.maxProbes, e.result),
       currentTaskCode := Some(acsTaskCode),
       currentQuestionId := Some(questionId))
  }

  /** A graded answer keeps the session invariant and leaves the stored follow-up
      question, the recent list, the mode and the owner as they were. */
  lemma AfterSubmitKeepsInvariant(s: Session, questionId: string, acsTaskCode: string, e: SubmitEvaluation)
    requires SessionInvariant(s)
    ensures var t := AfterSubmit(s, questionId, acsTaskCode, e);
      && SessionInvariant(t)
      && t.lastProbeQuestion == s.lastProbeQuestion
      && t.recent == s.recent && t.mode == s.mode && t.userId == s.userId && t.status == s.status
  {
    NextProbeCountInRange(s.probeCount, s.maxProbes, e.result);
  }
}
