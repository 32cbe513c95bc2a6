/**
 * The rows the routes read and write: sessions, questions, attempt-log entries and
 * per-task skill records, with the few helpers every route shares.
 */
module Records {
  import opened Wrappers
  import opened Verdicts

  /** `"PPL" | "IR" | "CPL"`: the certificate an exam session practises for. */
  datatype Mode = PPL | IR | CPL

  function ModeName(m: Mode): string {
    match m
    case PPL => "PPL"
    case IR => "IR"
    case CPL => "CPL"
  }

  datatype Status = Active | Completed

  /** What `JSON.parse` makes of the stored `recent_question_ids` text: a parse error,
      a value that is not an array, or an array of question ids. */
  datatype RecentColumn = Unparseable | NotArray | IdArray(ids: seq<string>)

  /** The recent list a route works with: the stored array, or the empty list when the
      column does not parse or is not an array. */
  function RecentIds(col: RecentColumn): seq<string> {
    if col.IdArray? then col.ids else []
  }

  /** A row of `sessions`. */
  datatype Session = Session(
    id: string,
    userId: string,
    mode: Mode,
    status: Status,
    recent: RecentColumn,
    probeCount: int,
    maxProbes: int,
    currentQuestionId: Option<string>,
    currentTaskCode: Option<string>,
    lastResult: Option<ResultCode>,
    lastFeedback: Option<string>,
    lastProbeQuestion: Option<string>)

  /** A row of `questions`; `modeTags` is the set its `mode_tags` array names. */
  datatype Question = Question(id: string, stem: string, acsTaskCode: string, acsArea: string, modeTags: set<Mode>)

  /** A row of `attempt_log`. */
  datatype Attempt = Attempt(
    id: string,
    sessionId: string,
    userId: string,
    questionId: string,
    acsTaskCode: string,
    answer: string,
    result: ResultCode,
    missingCount: nat,
    redFlagCount: nat,
    confidence: real)

  /** A row of `user_skill`, keyed by user and task code. */
  datatype Skill = Skill(mastery: real, attempts: nat, passes: nat, fails: nat)

  /** The identity every route acts for (`getUserId`). */
  const DemoUser: string := "demo-user"

  /** How many ids the recent list keeps. */
  const RecentLimit: nat := 10

  predicate Distinct(xs: seq<string>) {
    forall i, j | 0 <= i < j < |xs| :: xs[i] != xs[j]
  }

  /** The state a session row keeps between requests: its probe counter within
      `[0, max]`, and a recent list of at most ten distinct ids. */
  ghost predicate SessionInvariant(s: Session) {
    && 0 <= s.probeCount <= s.maxProbes
    && |RecentIds(s.recent)| <= RecentLimit
    && Distinct(RecentIds(s.recent))
  }

  /** A skill row is consistent: its mastery is within the 0-5 scale and it counts no more
      passes and failures together than attempts. */
  ghost predicate SkillInvariant(k: Skill) {
    0.0 <= k.mastery <= 5.0 && k.passes + k.fails <= k.attempts
  }

  /** `SELECT ... FROM questions WHERE id = ? LIMIT 1`: the first question with that id.
      SQL may return any matching row; with unique ids (`FindQuestionUnique`) the two agree. */
  function FindQuestion(questions: seq<Question>, id: string): (r: Option<Question>)
    ensures r.Some? <==> exists k | 0 <= k < |questions| :: questions[k].id == id
    ensures r.Some? ==> r.value in questions && r.value.id == id
  {
    if questions == [] then None
    else if questions[0].id == id then Some(questions[0])
    else
      var r := FindQuestion(questions[1..], id);
      assert forall k | 1 <= k < |questions| :: questions[k] == questions[1..][k - 1];
      r
  }

  /** With unique question ids, the question found is the only one with that id, so the
      row `LIMIT 1` returns does not depend on which matching row the database picks. */
  lemma {:induction false} FindQuestionUnique(questions: seq<Question>, id: string, k: nat)
    requires forall i, j | 0 <= i < j < |questions| :: questions[i].id != questions[j].id
    requires k < |questions| && questions[k].id == id
    ensures FindQuestion(questions, id) == Some(questions[k])
  {
    if questions[0].id != id {
      assert forall i | 1 <= i < |questions| :: questions[i] == questions[1..][i - 1];
      FindQuestionUnique(questions[1..], id, k - 1);
    }
  }
}
