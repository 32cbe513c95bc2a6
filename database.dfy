/**
 * The four route handlers as methods on the database they read and write: the
 * `sessions` rows by id, the `questions` table, the `attempt_log` and the
 * `user_skill` rows keyed by user and task code.
 */
module Database {
  import opened Wrappers
  import opened Text
  import opened Verdicts
  import opened Records
  import opened NextPrompt
  import opened AnswerSubmit
  import opened SessionsStart

  /** The answer of `sessions/start`. */
  datatype StartResponse = Started(sessionId: string) | StartRejected(status: nat, message: string)

  /** The answer of the two next-question routes. */
  datatype NextResponse = Served(question: Prompt, meta: Meta) | NextRejected(status: nat, message: string)

  /** The answer of `answer/submit`. */
  datatype SubmitResponse =
    | Graded(attemptId: string, result: ResultCode, feedback: string, confidence: real, acsTaskCode: string)
    | SubmitRejected(status: nat, message: string)

  const InvalidModeMessage: string := "Invalid mode. Use PPL, IR, or CPL."

  /** The checks both next-question routes make before anything else, in their order:
      the id is given, the session exists, the caller owns it, and it is active. */
  function NextAccessError(sessions: map<string, Session>, sessionId: Option<string>): (r: Option<NextResponse>)
    ensures r.None? <==>
      Truthy(sessionId) && sessionId.value in sessions &&
      sessions[sessionId.value].userId == DemoUser && sessions[sessionId.value].status == Active
    ensures r.Some? ==> r.value.NextRejected? && r.value.status in {400, 403, 404}
    ensures !Truthy(sessionId) ==> r == Some(NextRejected(400, "Missing sessionId"))
    ensures Truthy(sessionId) && sessionId.value !in sessions ==>
      r == Some(NextRejected(404, "Session not found"))
    ensures Truthy(sessionId) && sessionId.value in sessions && sessions[sessionId.value].userId != DemoUser ==>
      r == Some(NextRejected(403, "Forbidden"))
    ensures && Truthy(sessionId) && sessionId.value in sessions
            && sessions[sessionId.value].userId == DemoUser && sessions[sessionId.value].status != Active
      ==> r == Some(NextRejected(400, "Session is not active"))
  {
    if !Truthy(sessionId) then Some(NextRejected(400, "Missing sessionId"))
    else if sessionId.value !in sessions then Some(NextRejected(404, "Session not found"))
    else if sessions[sessionId.value].userId != DemoUser then Some(NextRejected(403, "Forbidden"))
    else if sessions[sessionId.value].status != Active then Some(NextRejected(400, "Session is not active"))
    else None
  }

  /** The checks of the submit route, in its order: all three fields are given and
      non-empty, the session exists, the caller owns it, it is active, and the question
      exists. */
  function SubmitAccessError(
    sessions: map<string, Session>, questions: seq<Question>,
    sessionId: Option<string>, questionId: Option<string>, answer: Option<string>): (r: Option<SubmitResponse>)
    ensures r.None? <==>
      && Truthy(sessionId) && Truthy(questionId) && Truthy(answer)
      && sessionId.value in sessions
      && sessions[sessionId.value].userId == DemoUser && sessions[sessionId.value].status == Active
      && FindQuestion(questions, questionId.value).Some?
    ensures r.Some? ==> r.value.SubmitRejected? && r.value.status in {400, 403, 404}
    ensures !(Truthy(sessionId) && Truthy(questionId) && Truthy(answer)) ==>
      r == Some(SubmitRejected(400, "Missing sessionId, questionId, or answer"))
    ensures Truthy(sessionId) && Truthy(questionId) && Truthy(answer) && sessionId.value !in sessions ==>
      r == Some(SubmitRejected(404, "Session not found"))
    ensures && Truthy(sessionId) && Truthy(questionId) && Truthy(answer) && sessionId.value in sessions
            && sessions[sessionId.value].userId != DemoUser
      ==> r == Some(SubmitRejected(403, "Forbidden"))
    ensures && Truthy(sessionId) && Truthy(questionId) && Truthy(answer) && sessionId.value in sessions
            && sessions[sessionId.value].userId == DemoUser && sessions[sessionId.value].status != Active
      ==> r == Some(SubmitRejected(400, "Session not active"))
    ensures r == Some(SubmitRejected(404, "Question not found")) <==>
      && Truthy(sessionId) && Truthy(questionId) && Truthy(answer)
      && sessionId.value in sessions
      && sessions[sessionId.value].userId == DemoUser && sessions[sessionId.value].status == Active
      && FindQuestion(questions, questionId.value).None?
  {
    if !Truthy(sessionId) || !Truthy(questionId) || !Truthy(answer) then
      Some(SubmitRejected(400, "Missing sessionId, questionId, or answer"))
    else if sessionId.value !in sessions then Some(SubmitRejected(404, "Session not found"))
    else if sessions[sessionId.value].userId != DemoUser then Some(SubmitRejected(403, "Forbidden"))
    else if sessions[sessionId.value].status != Active then Some(SubmitRejected(400, "Session not active"))
    else if FindQuestion(questions, questionId.value).None? then Some(SubmitRejected(404, "Question not found"))
    else None
  }

  /** The submit route looks the question id up as given: an answer submitted under a
      probe id is refused with 404 once the session checks pass, when no question id
      carries the probe marker. */
  lemma SubmittedProbeIdRejected(
    sessions: map<string, Session>, questions: seq<Question>,
    sid: string, baseId: string, count: int, answer: string)
    requires sid != "" && answer != ""
    requires sid in sessions && sessions[sid].userId == DemoUser && sessions[sid].status == Active
    requires forall k | 0 <= k < |questions| :: !Contains(questions[k].id, ProbeMarker)
    ensures SubmitAccessError(sessions, questions, Some(sid), Some(ProbeId(baseId, count)), Some(answer)) ==
      Some(SubmitRejected(404, "Question not found"))
  {
    ProbeIdNamesNoQuestion(questions, baseId, count);
  }

  /** The existing skill row for a key, if any. */
  function SkillRow(skills: map<(string, string), Skill>, key: (string, string)): Option<Skill> {
    if key in skills then Some(skills[key]) else None
  }

  /** A base question `q` was served for session `sid`: it is a legal random choice, the
      route answers with it, and only that session row changed, as serving it demands. */
  ghost predicate BaseServed(
    before: map<string, Session>, after: map<string, Session>, questions: seq<Question>,
    sid: string, meta: Meta, resp: NextResponse)
    requires sid in before
  {
    var s := before[sid];
    exists q | q in questions ::
      && BaseChoice(questions, s.mode, RecentIds(s.recent), q)
      && resp == Served(AsPrompt(q), meta)
      && after == before[sid := BaseUpdate(s, q)]
  }

  /** Every session row is filed under its id and keeps its invariant. */
  ghost predicate SessionsValid(sessions: map<string, Session>) {
    forall id | id in sessions :: sessions[id].id == id && SessionInvariant(sessions[id])
  }

  /** Every skill row is consistent. */
  ghost predicate SkillsValid(skills: map<(string, string), Skill>) {
    forall key | key in skills :: SkillInvariant(skills[key])
  }

  lemma SessionUpdateValid(sessions: map<string, Session>, sid: string, t: Session)
    requires SessionsValid(sessions) && t.id == sid && SessionInvariant(t)
    ensures SessionsValid(sessions[sid := t])
  {
  }

  lemma SkillUpdateValid(skills: map<(string, string), Skill>, key: (string, string), k: Skill)
    requires SkillsValid(skills) && SkillInvariant(k)
    ensures SkillsValid(skills[key := k])
  {
  }

  class Store {
    var sessions: map<string, Session>
    var questions: seq<Question>
    var attempts: seq<Attempt>
    var skills: map<(string, string), Skill>

    /** Every session row is filed under its id and keeps its invariant, question ids
        are unique, and every skill row is consistent. */
    ghost predicate Valid()
      reads this
    {
      && SessionsValid(sessions)
      && (forall i, j | 0 <= i < j < |questions| :: questions[i].id != questions[j].id)
      && SkillsValid(skills)
    }

    /** `POST /api/sessions/start`: an invalid mode is refused with 400; otherwise a new
        session row is inserted under the fresh id and that id is returned. */
    method Start(mode: Option<string>, freshId: string) returns (resp: StartResponse)
      requires freshId !in sessions
      modifies this
      ensures ModeFromName(mode).None? ==>
        resp == StartRejected(400, InvalidModeMessage) && sessions == old(sessions)
      ensures ModeFromName(mode).Some? ==>
        resp == Started(freshId) && sessions == old(sessions)[freshId := NewSession(freshId, ModeFromName(mode).value)]
      ensures questions == old(questions) && attempts == old(attempts) && skills == old(skills)
      ensures old(Valid()) ==> Valid()
    {
      var m := ModeFromName(mode);
      if m.None? {
        return StartRejected(400, InvalidModeMessage);
      }
      if Valid() {
        SessionUpdateValid(sessions, freshId, NewSession(freshId, m.value));
      }
      sessions := sessions[freshId := NewSession(freshId, m.value)];
      resp := Started(freshId);
    }

    /** The base path shared by both next-question routes: a question of the session's
        mode outside the recent list, or any question of the mode when there is none, or
        nothing when the mode has no question; a chosen question updates the session. */
    method ServeBase(sid: string) returns (chosen: Option<Question>)
      requires sid in sessions
      modifies this
      ensures var s := old(sessions)[sid];
        && (chosen.None? <==> !HasModeQuestion(questions, s.mode))
        && (chosen.None? ==> sessions == old(sessions))
        && (chosen.Some? ==>
              && BaseChoice(questions, s.mode, RecentIds(s.recent), chosen.value)
              && sessions == old(sessions)[sid := BaseUpdate(s, chosen.value)])
      ensures questions == old(questions) && attempts == old(attempts) && skills == old(skills)
      ensures old(Valid()) ==> Valid()
    {
      ghost var wasValid := Valid();
      var s := sessions[sid];
      var recent := RecentIds(s.recent);
      var q: Question;
      if HasFreshQuestion(questions, s.mode, recent) {
        var k :| 0 <= k < |questions| && s.mode in questions[k].modeTags && questions[k].id !in recent;
        q := questions[k];
      } else if HasModeQuestion(questions, s.mode) {
        var k :| 0 <= k < |questions| && s.mode in questions[k].modeTags;
        q := questions[k];
      } else {
        return None;
      }
      if wasValid {
        BaseUpdateKeepsInvariant(s, q, false);
        SessionUpdateValid(sessions, sid, BaseUpdate(s, q));
      }
      sessions := sessions[sid := BaseUpdate(s, q)];
      chosen := Some(q);
    }

    /** `POST /api/sessions/next`: the access checks, then the stored follow-up question as
        a probe prompt when one is due (no write), else a new base question. */
    method Next(sessionId: Option<string>, forceNewBase: bool) returns (resp: NextResponse)
      modifies this
      ensures NextAccessError(old(sessions), sessionId).Some? ==>
        resp == NextAccessError(old(sessions), sessionId).value && sessions == old(sessions)
      ensures NextAccessError(old(sessions), sessionId).None? ==>
        var s := old(sessions)[sessionId.value];
        var b := ProbeBase(s, questions, forceNewBase);
        && (b.Some? ==>
              && resp == Served(ProbePrompt(b.value, s), ProbeMeta(s.probeCount, s.maxProbes, b.value.id))
              && sessions == old(sessions))
        && (b.None? && !HasModeQuestion(questions, s.mode) ==>
              && resp == NextRejected(404, "No questions found for mode " + ModeName(s.mode))
              && sessions == old(sessions))
        && (b.None? && HasModeQuestion(questions, s.mode) ==>
              BaseServed(old(sessions), sessions, questions, sessionId.value, BaseMeta, resp))
      ensures questions == old(questions) && attempts == old(attempts) && skills == old(skills)
      ensures old(Valid()) ==> Valid()
    {
      var denied := NextAccessError(sessions, sessionId);
      if denied.Some? {
        return denied.value;
      }
      var sid := sessionId.value;
      var s := sessions[sid];
      var b := ProbeBase(s, questions, forceNewBase);
      if b.Some? {
        return Served(ProbePrompt(b.value, s), ProbeMeta(s.probeCount, s.maxProbes, b.value.id));
      }
      var chosen := ServeBase(sid);
      if chosen.None? {
        return NextRejected(404, "No questions found for mode " + ModeName(s.mode));
      }
      resp := Served(AsPrompt(chosen.value), BaseMeta);
    }

    /** `POST /api/session/next`, the older route: the same access checks, then always a
        new base question; it never serves a probe. */
    method LegacyNext(sessionId: Option<string>) returns (resp: NextResponse)
      modifies this
      ensures NextAccessError(old(sessions), sessionId).Some? ==>
        resp == NextAccessError(old(sessions), sessionId).value && sessions == old(sessions)
      ensures NextAccessError(old(sessions), sessionId).None? ==>
        var s := old(sessions)[sessionId.value];
        && (!HasModeQuestion(questions, s.mode) ==>
              && resp == NextRejected(404, "No questions found for mode " + ModeName(s.mode))
              && sessions == old(sessions))
        && (HasModeQuestion(questions, s.mode) ==>
              BaseServed(old(sessions), sessions, questions, sessionId.value, NoMeta, resp))
      ensures questions == old(questions) && attempts == old(attempts) && skills == old(skills)
      ensures old(Valid()) ==> Valid()
    {
      var denied := NextAccessError(sessions, sessionId);
      if denied.Some? {
        return denied.value;
      }
      var sid := sessionId.value;
      var s := sessions[sid];
      var chosen := ServeBase(sid);
      if chosen.None? {
        return NextRejected(404, "No questions found for mode " + ModeName(s.mode));
      }
      resp := Served(AsPrompt(chosen.value), NoMeta);
    }

    /** `POST /api/answer/submit`: the access checks (no write on any of them), then the
        answer is graded, one attempt is logged, the skill row is upserted and the session
        records the verdict. */
    method Submit(sessionId: Option<string>, questionId: Option<string>, answer: Option<string>, attemptId: string)
      returns (resp: SubmitResponse)
      modifies this
      ensures SubmitAccessError(old(sessions), questions, sessionId, questionId, answer).Some? ==>
        && resp == SubmitAccessError(old(sessions), questions, sessionId, questionId, answer).value
        && sessions == old(sessions) && attempts == old(attempts) && skills == old(skills)
      ensures SubmitAccessError(old(sessions), questions, sessionId, questionId, answer).None? ==>
        var sid := sessionId.value;
        var qid := questionId.value;
        var code := FindQuestion(questions, qid).value.acsTaskCode;
        var e := StubEvaluate(answer.value);
        var key := (DemoUser, code);
        && resp == Graded(attemptId, e.result, e.feedback, e.confidence, code)
        && attempts == old(attempts) +
             [Attempt(attemptId, sid, DemoUser, qid, code, answer.value, e.result, e.missing, e.redFlags, e.confidence)]
        && skills == old(skills)[key := SkillAfter(SkillRow(old(skills), key), e.result)]
        && sessions == old(sessions)[sid := AfterSubmit(old(sessions)[sid], qid, code, e)]
      ensures questions == old(questions)
      ensures old(Valid()) ==> Valid()
    {
      ghost var wasValid := Valid();
      var denied := SubmitAccessError(sessions, questions, sessionId, questionId, answer);
      if denied.Some? {
        return denied.value;
      }
      var sid := sessionId.value;
      var qid := questionId.value;
      var code := FindQuestion(questions, qid).value.acsTaskCode;
      var e := StubEvaluate(answer.value);
      attempts := attempts +
        [Attempt(attemptId, sid, DemoUser, qid, code, answer.value, e.result, e.missing, e.redFlags, e.confidence)];
      var key := (DemoUser, code);
      if wasValid {
        SkillAfterKeepsInvariant(SkillRow(skills, key), e.result);
        SkillUpdateValid(skills, key, SkillAfter(SkillRow(skills, key), e.result));
        AfterSubmitKeepsInvariant(sessions[sid], qid, code, e);
        SessionUpdateValid(sessions, sid, AfterSubmit(sessions[sid], qid, code, e));
      }
      skills := skills[key := SkillAfter(SkillRow(skills, key), e.result)];
      sessions := sessions[sid := AfterSubmit(sessions[sid], qid, code, e)];
      resp := Graded(attemptId, e.result, e.feedback, e.confidence, code);
    }
  }
}
