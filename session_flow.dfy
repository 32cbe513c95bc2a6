/**
 * What the routes do to one session row over a run of requests: serving base
 * questions and grading answers, starting from the row `sessions/start` inserts.
 */
module SessionFlow {
  import opened Verdicts
  import opened Records
  import opened NextPrompt
  import opened AnswerSubmit
  import opened SessionsStart

  /** A request that writes the session row: a base question served by either
      next-question route, or an answer graded by the submit route. (Serving a probe
      writes nothing.) */
  datatype Step =
    | BaseStep(question: Question)
    | AnswerStep(questionId: string, acsTaskCode: string, evaluation: SubmitEvaluation)

  function Apply(s: Session, step: Step): Session {
    match step
    case BaseStep(q) => BaseUpdate(s, q)
    case AnswerStep(qid, code, e) => AfterSubmit(s, qid, code, e)
  }

  /** The row after the steps, in order. */
  function Replay(s: Session, steps: seq<Step>): Session
    decreases |steps|
  {
    if steps == [] then s else Replay(Apply(s, steps[0]), steps[1..])
  }

  /** Any run of requests keeps the session invariant, and none of them writes the stored
      follow-up question. */
  lemma {:induction false} ReplayKeepsInvariant(s: Session, steps: seq<Step>)
    requires SessionInvariant(s)
    ensures SessionInvariant(Replay(s, steps))
    ensures Replay(s, steps).lastProbeQuestion == s.lastProbeQuestion
    decreases |steps|
  {
    if steps != [] {
      match steps[0] {
        case BaseStep(q) => BaseUpdateKeepsInvariant(s, q, false);
        case AnswerStep(qid, code, e) => AfterSubmitKeepsInvariant(s, qid, code, e);
      }
      ReplayKeepsInvariant(Apply(s, steps[0]), steps[1..]);
    }
  }

  /** A session started through `sessions/start` is never served a probe, whatever
      requests follow: it starts without a follow-up question and no route stores one. */
  lemma StartedSessionNeverProbes(id: string, mode: Mode, steps: seq<Step>, questions: seq<Question>, forceNewBase: bool)
    ensures ProbeBase(Replay(NewSession(id, mode), steps), questions, forceNewBase).None?
    ensures SessionInvariant(Replay(NewSession(id, mode), steps))
  {
    ReplayKeepsInvariant(NewSession(id, mode), steps);
  }

  /** After an answer graded PASS, REMEDIATE or FAIL no probe is due: the counter is reset
      to 0, so the REMEDIATE and FAIL cases of `shouldProbe` cannot fire after a submit. */
  lemma NonProbeVerdictEndsProbing(s: Session, qid: string, code: string, e: SubmitEvaluation, forceNewBase: bool)
    requires e.result != PROBE
    ensures !ShouldProbe(AfterSubmit(s, qid, code, e), forceNewBase)
  {
  }

  /** A graded answer leaves a probe due exactly when it was graded PROBE, the session
      allows at least one probe, and no new base question is asked for. */
  lemma ProbeDueAfterSubmit(s: Session, qid: string, code: string, e: SubmitEvaluation, forceNewBase: bool)
    requires SessionInvariant(s) && qid != ""
    ensures ShouldProbe(AfterSubmit(s, qid, code, e), forceNewBase) <==>
      !forceNewBase && e.result == PROBE && s.maxProbes >= 1
  {
    NextProbeCountInRange(s.probeCount, s.maxProbes, e.result);
  }

  /** `k` copies of one step. */
  function Repeat(step: Step, k: nat): (steps: seq<Step>)
    ensures |steps| == k
  {
    if k == 0 then [] else [step] + Repeat(step, k - 1)
  }

  /** A streak of PROBE verdicts never ends the probing: after any number of them the
      counter sits at the maximum (or below it, counting up) and a probe is still due. The
      counter bounds the value stored, not the length of the streak. */
  lemma {:induction false} ProbeStreakNeverEnds(s: Session, qid: string, code: string, e: SubmitEvaluation, k: nat)
    requires SessionInvariant(s) && s.maxProbes >= 1 && e.result == PROBE && qid != "" && k >= 1
    ensures var t := Replay(s, Repeat(AnswerStep(qid, code, e), k));
      && ShouldProbe(t, false)
      && t.probeCount == (if s.probeCount + k < s.maxProbes then s.probeCount + k else s.maxProbes)
    decreases k
  {
    var step := AnswerStep(qid, code, e);
    var t1 := AfterSubmit(s, qid, code, e);
    NextProbeCountInRange(s.probeCount, s.maxProbes, e.result);
    assert Repeat(step, k)[0] == step && Repeat(step, k)[1..] == Repeat(step, k - 1);
    assert Replay(s, Repeat(step, k)) == Replay(t1, Repeat(step, k - 1));
    if k > 1 {
      AfterSubmitKeepsInvariant(s, qid, code, e);
      ProbeStreakNeverEnds(t1, qid, code, e, k - 1);
    }
  }
}
