/**
 * The decisions of the next-question routes that do not touch the store: when a probe
 * is due, what a probe prompt looks like, which questions may be served as the next
 * base question, and what serving one does to the session row.
 */
module NextPrompt {
  import opened Wrappers
  import opened Text
  import opened Verdicts
  import opened Records
  import opened RecentList

  /** The `question` object a route returns. */
  datatype Prompt = Prompt(id: string, stem: string, acsTaskCode: string, acsArea: string)

  /** The `meta` object of `sessions/next`; the older `session/next` route sends none. */
  datatype Meta = ProbeMeta(probeCount: int, maxProbes: int, baseQuestionId: string) | BaseMeta | NoMeta

  /** `shouldProbe`: no new base question was asked for, the last verdict was not a pass,
      the probe counter is within `(0, max]`, and a current question is set. */
  predicate ShouldProbe(s: Session, forceNewBase: bool) {
    && !forceNewBase
    && (s.lastResult == Some(PROBE) || s.lastResult == Some(REMEDIATE) || s.lastResult == Some(FAIL))
    && 0 < s.probeCount <= s.maxProbes
    && Truthy(s.currentQuestionId)
  }

  /** The base question of the probe the route serves, if it serves one: a probe must be
      due, a follow-up question must be stored, and the current question must exist. */
  function ProbeBase(s: Session, questions: seq<Question>, forceNewBase: bool): (b: Option<Question>)
    ensures b.Some? ==> ShouldProbe(s, forceNewBase) && Truthy(s.lastProbeQuestion)
  {
    if ShouldProbe(s, forceNewBase) && Truthy(s.lastProbeQuestion) then
      FindQuestion(questions, s.currentQuestionId.value)
    else None
  }

  /** A probe is served exactly when all six conditions hold; it is built on the current
      question. */
  lemma ProbeBaseConditions(s: Session, questions: seq<Question>, forceNewBase: bool)
    ensures var b := ProbeBase(s, questions, forceNewBase);
      && (b.Some? <==>
            && !forceNewBase
            && s.lastResult in {Some(PROBE), Some(REMEDIATE), Some(FAIL)}
            && 0 < s.probeCount <= s.maxProbes
            && Truthy(s.currentQuestionId)
            && Truthy(s.lastProbeQuestion)
            && exists k | 0 <= k < |questions| :: questions[k].id == s.currentQuestionId.value)
      && (b.Some? ==> b.value in questions && b.value.id == s.currentQuestionId.value)
  {
  }

  /** `${baseQ.id}__probe_${probe_count_for_task}`. */
  function ProbeId(baseId: string, count: int): string {
    baseId + ProbeMarker + IntToString(count)
  }

  /** The prompt a probe serves: the stored follow-up question as its stem, under the
      base question's task code and area. */
  function ProbePrompt(base: Question, s: Session): Prompt
    requires s.lastProbeQuestion.Some?
  {
    Prompt(ProbeId(base.id, s.probeCount), s.lastProbeQuestion.value, base.acsTaskCode, base.acsArea + " (Probe)")
  }

  /** A probe id extends its base id, so it is never the base id itself, and probes with
      different counters on the same base get different ids. */
  lemma ProbeIdsDiffer(baseId: string, m: nat, n: nat)
    ensures baseId < ProbeId(baseId, m)
    ensures m != n ==> ProbeId(baseId, m) != ProbeId(baseId, n)
  {
    var pre := baseId + ProbeMarker;
    assert ProbeId(baseId, m) == pre + NatToString(m);
    assert ProbeId(baseId, n) == pre + NatToString(n);
    if m != n && ProbeId(baseId, m) == ProbeId(baseId, n) {
      assert (pre + NatToString(m))[|pre|..] == NatToString(m);
      assert (pre + NatToString(n))[|pre|..] == NatToString(n);
      NatToStringInjective(m, n);
    }
  }

  /** The marker that separates a probe id from its base id. */
  const ProbeMarker: string := "__probe_"

  /** No question is ever found under a probe id when no question id carries the probe
      marker: a probe id names no row of `questions`. */
  lemma ProbeIdNamesNoQuestion(questions: seq<Question>, baseId: string, count: int)
    requires forall k | 0 <= k < |questions| :: !Contains(questions[k].id, ProbeMarker)
    ensures FindQuestion(questions, ProbeId(baseId, count)).None?
  {
    var pid := ProbeId(baseId, count);
    assert pid[|baseId|..|baseId| + |ProbeMarker|] == ProbeMarker;
    assert OccursAt(pid, ProbeMarker, |baseId|);
    assert Contains(pid, ProbeMarker);
  }

  /** The prompt a base question serves. */
  function AsPrompt(q: Question): Prompt {
    Prompt(q.id, q.stem, q.acsTaskCode, q.acsArea)
  }

  /** Some question carries the mode tag. */
  predicate HasModeQuestion(questions: seq<Question>, mode: Mode) {
    exists k | 0 <= k < |questions| :: mode in questions[k].modeTags
  }

  /** Some question carries the mode tag and is not in the recent list. */
  predicate HasFreshQuestion(questions: seq<Question>, mode: Mode, recent: seq<string>) {
    exists k | 0 <= k < |questions| :: mode in questions[k].modeTags && questions[k].id !in recent
  }

  /** The outcomes the two `ORDER BY RAND() LIMIT 1` queries allow: a question of the
      session's mode, outside the recent list unless every question of the mode is in it. */
  ghost predicate BaseChoice(questions: seq<Question>, mode: Mode, recent: seq<string>, q: Question) {
    && q in questions
    && mode in q.modeTags
    && (q.id in recent ==> !HasFreshQuestion(questions, mode, recent))
  }

  /** The session after a base question is served: it becomes the current question, the
      probe counter is reset, and the recent list is updated. */
  function BaseUpdate(s: Session, q: Question): Session {
    s.(currentQuestionId := Some(q.id),
       currentTaskCode := Some(q.acsTaskCode),
       probeCount := 0,
       recent := IdArray(NewRecent(q.id, RecentIds(s.recent))))
  }

  /** Serving a base question keeps the session invariant, puts the question at the head
      of the recent list, and leaves no probe due. */
  lemma BaseUpdateKeepsInvariant(s: Session, q: Question, forceNewBase: bool)
    requires SessionInvariant(s)
    ensures SessionInvariant(BaseUpdate(s, q))
    ensures RecentIds(BaseUpdate(s, q).recent)[0] == q.id
    ensures !ShouldProbe(BaseUpdate(s, q), forceNewBase)
  {
    NewRecentDistinct(q.id, RecentIds(s.recent));
    NewRecentShape(q.id, RecentIds(s.recent));
  }
}
