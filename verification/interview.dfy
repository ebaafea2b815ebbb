/** The interview session of `run_interview_app`: the `st.session_state`
    fields the page keeps between reruns, and the three user actions that
    change them (Start, submitting an answer, and starting a new interview
    after the evaluation). Every completion call is an argument: the text the
    provider returned, or None for any failure. */
module Interview {
  import opened Wrappers
  import opened Text
  import opened Prompts
  import opened Store

  /** The session state. `jobTitle` and `maxQuestions` are the values
      snapshotted by the last Start; before any Start the title key does not
      exist, which is modelled as "". */
  datatype Session = Session(
    started: bool,
    questions: seq<string>,
    answers: seq<string>,
    feedback: seq<Option<string>>,
    evaluation: string,
    jobTitle: string,
    maxQuestions: nat)

  /** The state the first run of a browser session creates. */
  const Fresh: Session := Session(false, [], [], [], "", "", 3)

  /** The sidebar values, read afresh on every run of the page. */
  datatype Settings = Settings(
    apiKey: string,
    model: string,
    maxQuestions: nat,
    userName: string,
    jobTitle: string,
    style: string)

  /** The bounds of the "Number of Questions" input. */
  predicate ValidCount(n: nat) {
    1 <= n <= 10
  }

  /** The provider's raw replies to the calls a submission may make; a call
      that is not made ignores its reply. */
  datatype Replies = Replies(feedback: Option<string>, next: Option<string>, evaluation: Option<string>)

  /** One completion call a transition made, described by its inputs. */
  datatype Call =
    | AskQuestion(model: string, jobTitle: string, total: nat, style: string, qs: seq<string>, ans: seq<string>)
    | AskFeedback(model: string, question: string, answer: string)
    | AskEvaluation(model: string, jobTitle: string, qs: seq<string>, ans: seq<string>)

  /** The request a call sends: `generate_question`, `get_feedback_for_answer`
      and `evaluate_answers` respectively. */
  function RequestOf(c: Call): Request {
    match c
    case AskQuestion(model, jobTitle, total, style, qs, ans) =>
      Request(model, QuestionMessages(SystemPrompt(jobTitle, total, style), qs, ans))
    case AskFeedback(model, question, answer) =>
      Request(model, FeedbackMessages(question, answer))
    case AskEvaluation(model, jobTitle, qs, ans) =>
      Request(model, EvaluationMessages(jobTitle, qs, ans))
  }

  /** Some call in `calls` asks for the final evaluation. */
  predicate AsksEvaluation(calls: seq<Call>) {
    exists i :: 0 <= i < |calls| && calls[i].AskEvaluation?
  }

  /** The warning or error a transition shows. */
  datatype Notice =
    | Silent
    | MissingSettings
    | ClientFailed
    | StartFailed
    | EmptyAnswer
    | NextQuestionFailed
    | EvaluationFailed

  /** The result of one transition: the new state, the calls sent in order,
      the notice shown, and the database after any write. */
  datatype Step = Step(state: Session, calls: seq<Call>, notice: Notice, db: Option<Db>)

  /** A completion helper's return value: the reply text stripped, None on
      failure. */
  function Stripped(reply: Option<string>): Option<string> {
    match reply
    case None => None
    case Some(t) => Some(Strip(t))
  }

  /** Python truthiness of an `Optional[str]`. */
  predicate Truthy(o: Option<string>) {
    o.Some? && o.value != ""
  }

  /** `user_name or "Anonymous"`: the name when one is given, and never
      the empty string. */
  function DisplayName(userName: string): (r: string)
    ensures r != ""
    ensures userName != "" ==> r == userName
    ensures userName == "" ==> r == "Anonymous"
  {
    if userName == "" then "Anonymous" else userName
  }

  function Pop<T>(xs: seq<T>): seq<T>
    requires xs != []
  {
    xs[..|xs| - 1]
  }

  // ---------------------------------------------------------------------
  // Invariant
  // ---------------------------------------------------------------------

  /** What holds of every state the page can reach. */
  predicate Valid(s: Session) {
    && ValidCount(s.maxQuestions)
    && |s.answers| <= |s.questions| <= |s.answers| + 1
    && |s.feedback| == |s.answers|
    && |s.questions| <= s.maxQuestions
    && (!s.started ==> s.questions == [] && s.answers == [] && s.feedback == [] && s.evaluation == "")
    && (s.started ==> s.questions != [])
    && (s.evaluation != "" ==> |s.answers| == s.maxQuestions)
    && (s.started && |s.answers| == |s.questions| ==> |s.answers| == s.maxQuestions)
    && (forall i :: 0 <= i < |s.answers| ==> !Blank(s.answers[i]))
    && (forall i :: 0 <= i < |s.questions| ==> s.questions[i] != [])
  }

  /** The answer form is shown: started, not evaluated, and a question is
      waiting for its answer. */
  predicate AcceptsAnswer(s: Session) {
    s.started && s.evaluation == "" && |s.answers| < |s.questions|
  }

  /** The state a failed final evaluation leaves behind. */
  predicate Stuck(s: Session) {
    s.started && s.evaluation == "" && |s.answers| == |s.questions|
  }

  lemma FreshValid()
    ensures Valid(Fresh) && !Fresh.started
  {
  }

  // ---------------------------------------------------------------------
  // Start
  // ---------------------------------------------------------------------

  /** The "Start Interview" button. It is disabled once started; it needs a
      key and a job title; it needs a client; then it clears the lists,
      snapshots the job title and count, and asks for the first question.
      Only a non-empty question starts the interview. */
  function Start(s: Session, cfg: Settings, clientReady: bool, reply: Option<string>, db: Option<Db>): (st: Step)
    requires ValidCount(cfg.maxQuestions)
    ensures st.db == db
    ensures st.calls == [] ==> st.state == s
    ensures st.calls != [] <==> !s.started && cfg.apiKey != "" && cfg.jobTitle != "" && clientReady
    ensures st.calls != [] ==> st.calls == [AskQuestion(cfg.model, cfg.jobTitle, cfg.maxQuestions, cfg.style, [], [])]
    ensures st.state.started <==> s.started || (st.calls != [] && reply.Some? && !Blank(reply.value))
    ensures st.calls != [] ==>
              && st.state.answers == [] && st.state.feedback == [] && st.state.evaluation == ""
              && st.state.jobTitle == cfg.jobTitle && st.state.maxQuestions == cfg.maxQuestions
              && st.state.questions == (if st.state.started then [Strip(reply.value)] else [])
  {
    if s.started then Step(s, [], Silent, db)
    else if cfg.apiKey == "" || cfg.jobTitle == "" then Step(s, [], MissingSettings, db)
    else if !clientReady then Step(s, [], ClientFailed, db)
    else
      var cleared := s.(questions := [], answers := [], feedback := [], evaluation := "",
                        jobTitle := cfg.jobTitle, maxQuestions := cfg.maxQuestions);
      var call := AskQuestion(cfg.model, cfg.jobTitle, cfg.maxQuestions, cfg.style, [], []);
      var q := Stripped(reply);
      if Truthy(q) then Step(cleared.(questions := [q.value], started := true), [call], Silent, db)
      else Step(cleared, [call], StartFailed, db)
  }

  /** Start keeps the invariant. */
  lemma StartValid(s: Session, cfg: Settings, clientReady: bool, reply: Option<string>, db: Option<Db>)
    requires Valid(s) && ValidCount(cfg.maxQuestions)
    ensures Valid(Start(s, cfg, clientReady, reply, db).state)
  {
    var st := Start(s, cfg, clientReady, reply, db);
    if st.state.started && !s.started {
      assert st.state.questions == [Strip(reply.value)];
    }
  }

  /** A failed first question leaves the interview unstarted, with empty
      lists and no evaluation, so Start can be pressed again. */
  lemma StartFailureLeavesUnstarted(s: Session, cfg: Settings, reply: Option<string>, db: Option<Db>)
    requires Valid(s) && !s.started && ValidCount(cfg.maxQuestions)
    requires reply.None? || Blank(reply.value)
    ensures var st := Start(s, cfg, true, reply, db);
            && !st.state.started
            && st.state.questions == [] && st.state.answers == [] && st.state.feedback == []
            && st.state.evaluation == ""
            && (cfg.apiKey != "" && cfg.jobTitle != "" ==> st.notice == StartFailed)
  {
  }

  // ---------------------------------------------------------------------
  // Submitting an answer
  // ---------------------------------------------------------------------

  /** The "Submit Answer" button of the answer form. A blank answer only
      warns. Otherwise the answer and its feedback (possibly absent) are
      appended; below the question count the next question is requested and,
      if none comes back, both appends are popped again; at the count the
      evaluation is requested, and on success the session is saved. A failed
      evaluation is not undone. */
  function Submit(s: Session, cfg: Settings, answer: string, replies: Replies, now: string,
                  db: Option<Db>, writeOk: bool): (st: Step)
    ensures !AcceptsAnswer(s) || Blank(answer) ==> st.state == s && st.calls == [] && st.db == db
    ensures |st.state.answers| - |s.answers| == |st.state.feedback| - |s.feedback|
    ensures st.state.answers == s.answers || st.state.answers == s.answers + [answer]
    ensures st.state.questions == s.questions
            || (|st.state.questions| == |s.questions| + 1 && st.state.questions[..|s.questions|] == s.questions)
    ensures st.state.started == s.started && st.state.jobTitle == s.jobTitle && st.state.maxQuestions == s.maxQuestions
    ensures st.db != db ==> st.state.evaluation != "" && s.evaluation == ""
    ensures db.None? ==> st.db.None?
    ensures db.Some? ==> st.db.Some? && db.value <= st.db.value
  {
    if !AcceptsAnswer(s) then Step(s, [], Silent, db)
    else if Strip(answer) == "" then Step(s, [], EmptyAnswer, db)
    else
      var k := |s.answers|;
      var answers := s.answers + [answer];
      var feedback := s.feedback + [Stripped(replies.feedback)];
      var feedbackCall := AskFeedback(cfg.model, s.questions[k], answer);
      if |answers| < s.maxQuestions then
        var nextCall := AskQuestion(cfg.model, s.jobTitle, s.maxQuestions, cfg.style, s.questions, answers);
        var next := Stripped(replies.next);
        if Truthy(next) then
          Step(s.(questions := s.questions + [next.value], answers := answers, feedback := feedback),
               [feedbackCall, nextCall], Silent, db)
        else
          Step(s.(answers := Pop(answers), feedback := Pop(feedback)),
               [feedbackCall, nextCall], NextQuestionFailed, db)
      else
        var evaluationCall := AskEvaluation(cfg.model, s.jobTitle, s.questions, answers);
        var evaluation := Stripped(replies.evaluation);
        if Truthy(evaluation) then
          var rec := Record(DisplayName(cfg.userName), s.jobTitle, s.questions, answers, feedback,
                            evaluation.value, cfg.model, Some(now));
          Step(s.(answers := answers, feedback := feedback, evaluation := evaluation.value),
               [feedbackCall, evaluationCall], Silent, StoreSession(db, rec, writeOk))
        else
          Step(s.(answers := answers, feedback := feedback),
               [feedbackCall, evaluationCall], EvaluationFailed, db)
  }

  /** Submitting keeps the invariant: one pending question at most, as many
      feedback entries as answers, never more questions than the count. */
  lemma SubmitValid(s: Session, cfg: Settings, answer: string, replies: Replies, now: string,
                    db: Option<Db>, writeOk: bool)
    requires Valid(s)
    ensures Valid(Submit(s, cfg, answer, replies, now, db, writeOk).state)
  {
    var st := Submit(s, cfg, answer, replies, now, db, writeOk);
    if AcceptsAnswer(s) && Strip(answer) != "" && st.state.answers != s.answers {
      var t := st.state;
      assert t.answers == s.answers + [answer];
      forall i | 0 <= i < |t.answers| ensures !Blank(t.answers[i]) {
        if i < |s.answers| { assert t.answers[i] == s.answers[i]; }
      }
      forall i | 0 <= i < |t.questions| ensures t.questions[i] != [] {
        if i < |s.questions| { assert t.questions[i] == s.questions[i]; }
      }
    }
  }

  /** A blank answer (empty after `strip()`) changes nothing and only warns. */
  lemma BlankAnswerIsNoOp(s: Session, cfg: Settings, answer: string, replies: Replies, now: string,
                          db: Option<Db>, writeOk: bool)
    requires Blank(answer)
    ensures var st := Submit(s, cfg, answer, replies, now, db, writeOk);
            && st.state == s && st.calls == [] && st.db == db
            && (AcceptsAnswer(s) ==> st.notice == EmptyAnswer)
  {
  }

  /** An accepted answer asks for feedback on it and then for either the
      next question, over the whole history including the new answer, or,
      once the answer count reaches the question count, the evaluation. The
      model and interview type are the current sidebar values; the job title
      and count are the snapshot. */
  lemma SubmitCalls(s: Session, cfg: Settings, answer: string, replies: Replies, now: string,
                    db: Option<Db>, writeOk: bool)
    requires Valid(s) && AcceptsAnswer(s) && !Blank(answer)
    ensures var st := Submit(s, cfg, answer, replies, now, db, writeOk);
            var answers := s.answers + [answer];
            && |st.calls| == 2
            && st.calls[0] == AskFeedback(cfg.model, s.questions[|s.answers|], answer)
            && (|answers| < s.maxQuestions ==>
                  st.calls[1] == AskQuestion(cfg.model, s.jobTitle, s.maxQuestions, cfg.style, s.questions, answers))
            && (|answers| == s.maxQuestions ==>
                  st.calls[1] == AskEvaluation(cfg.model, s.jobTitle, s.questions, answers))
  {
  }

  /** The next-question request after an answer pairs every question with its
      answer (none is dropped), so it has two messages per answered turn plus
      the system message and the closing "next question" directive. */
  lemma NextQuestionRequestShape(model: string, s: Session, style: string, answer: string)
    requires Valid(s) && AcceptsAnswer(s)
    ensures var answers := s.answers + [answer];
            var r := RequestOf(AskQuestion(model, s.jobTitle, s.maxQuestions, style, s.questions, answers));
            && |r.messages| == 2 + 2 * |answers|
            && r.messages[|r.messages| - 1] == Message(User, NextQuestionAsk)
            && r.messages[2 * |s.answers| + 2] == Message(User, answer)
  {
    var answers := s.answers + [answer];
    assert Min(|s.questions|, |answers|) == |answers|;
    assert answers[|s.answers|] == answer;
  }

  /** The evaluation is requested exactly when an accepted, non-blank answer
      brings the answer count up to the question count. */
  lemma EvaluationOnlyAtLimit(s: Session, cfg: Settings, answer: string, replies: Replies, now: string,
                              db: Option<Db>, writeOk: bool)
    requires Valid(s)
    ensures var st := Submit(s, cfg, answer, replies, now, db, writeOk);
            AsksEvaluation(st.calls) <==>
              AcceptsAnswer(s) && !Blank(answer) && |s.answers| + 1 == s.maxQuestions
  {
    var st := Submit(s, cfg, answer, replies, now, db, writeOk);
    if AcceptsAnswer(s) && !Blank(answer) && |s.answers| + 1 == s.maxQuestions {
      assert st.calls[1].AskEvaluation?;
    }
  }

  /** A non-blank answer below the count whose next question does not come
      back is rolled back: the state is exactly what it was. */
  lemma NextQuestionFailureRollsBack(s: Session, cfg: Settings, answer: string, replies: Replies, now: string,
                                     db: Option<Db>, writeOk: bool)
    requires AcceptsAnswer(s) && !Blank(answer)
    requires |s.answers| + 1 < s.maxQuestions
    requires !Truthy(Stripped(replies.next))
    ensures var st := Submit(s, cfg, answer, replies, now, db, writeOk);
            st.state == s && st.notice == NextQuestionFailed && st.db == db
  {
    var answers := s.answers + [answer];
    var feedback := s.feedback + [Stripped(replies.feedback)];
    assert Pop(answers) == s.answers;
    assert Pop(feedback) == s.feedback;
  }

  /** A successful next question records the answer, its feedback (which may
      be absent) and the new question, and nothing else changes. */
  lemma NextQuestionAdvances(s: Session, cfg: Settings, answer: string, replies: Replies, now: string,
                             db: Option<Db>, writeOk: bool)
    requires AcceptsAnswer(s) && !Blank(answer)
    requires |s.answers| + 1 < s.maxQuestions
    requires Truthy(Stripped(replies.next))
    ensures var st := Submit(s, cfg, answer, replies, now, db, writeOk);
            && st.state == s.(questions := s.questions + [Strip(replies.next.value)],
                              answers := s.answers + [answer],
                              feedback := s.feedback + [Stripped(replies.feedback)])
            && AcceptsAnswer(st.state)
            && st.db == db
  {
  }

  /** A successful evaluation completes the session and hands one record,
      holding the full lists, to the store; without a database nothing is
      written. */
  lemma EvaluationSuccessSaves(s: Session, cfg: Settings, answer: string, replies: Replies, now: string,
                               db: Option<Db>, writeOk: bool)
    requires Valid(s) && AcceptsAnswer(s) && !Blank(answer)
    requires |s.answers| + 1 == s.maxQuestions
    requires Truthy(Stripped(replies.evaluation))
    ensures var st := Submit(s, cfg, answer, replies, now, db, writeOk);
            var rec := Record(DisplayName(cfg.userName), s.jobTitle, st.state.questions, st.state.answers,
                              st.state.feedback, st.state.evaluation, cfg.model, Some(now));
            && st.state.evaluation == Strip(replies.evaluation.value) && st.state.evaluation != ""
            && st.state.answers == s.answers + [answer]
            && st.state.feedback == s.feedback + [Stripped(replies.feedback)]
            && st.state.questions == s.questions
            && !AcceptsAnswer(st.state)
            && (db.None? ==> st.db.None?)
            && (db.Some? && writeOk ==> st.db == Some(db.value + [rec]))
            && (db.Some? && !writeOk ==> st.db == db)
  {
  }

  /** A failed evaluation keeps the answer and its feedback, leaves the
      evaluation empty, writes nothing, and leaves the session stuck. */
  lemma EvaluationFailureSticks(s: Session, cfg: Settings, answer: string, replies: Replies, now: string,
                                db: Option<Db>, writeOk: bool)
    requires Valid(s) && AcceptsAnswer(s) && !Blank(answer)
    requires |s.answers| + 1 == s.maxQuestions
    requires !Truthy(Stripped(replies.evaluation))
    ensures var st := Submit(s, cfg, answer, replies, now, db, writeOk);
            && st.state.answers == s.answers + [answer]
            && st.state.feedback == s.feedback + [Stripped(replies.feedback)]
            && st.state.evaluation == ""
            && st.notice == EvaluationFailed
            && st.db == db
            && Stuck(st.state)
  {
  }

  /** No request sent while submitting depends on the stored feedback:
      neither the next-question history nor the evaluation transcript
      includes it. The calls, and so the requests they render, are the
      same whatever feedback is stored. */
  lemma CallsIgnoreFeedback(s: Session, feedback: seq<Option<string>>, cfg: Settings, answer: string,
                            replies: Replies, now: string, db: Option<Db>, writeOk: bool)
    ensures Submit(s.(feedback := feedback), cfg, answer, replies, now, db, writeOk).calls
            == Submit(s, cfg, answer, replies, now, db, writeOk).calls
  {
  }

  /** The job title and question count come from the Start snapshot; the
      sidebar's current title and count have no effect on a submission. */
  lemma SubmitUsesSnapshot(s: Session, cfg: Settings, title: string, count: nat, answer: string,
                           replies: Replies, now: string, db: Option<Db>, writeOk: bool)
    ensures Submit(s, cfg.(jobTitle := title, maxQuestions := count), answer, replies, now, db, writeOk)
            == Submit(s, cfg, answer, replies, now, db, writeOk)
  {
  }

  // ---------------------------------------------------------------------
  // Reset
  // ---------------------------------------------------------------------

  /** "Start a New Interview", shown only once an evaluation exists: clear the
      session state, which the next run initialises afresh. */
  function Reset(s: Session): (r: Session)
    ensures s.evaluation == "" ==> r == s
    ensures s.evaluation != "" ==>
              && !r.started && r.questions == [] && r.answers == [] && r.feedback == []
              && r.evaluation == "" && r.maxQuestions == 3
  {
    if s.evaluation != "" then Fresh else s
  }

  /** After a completed interview, the reset forgets everything: any two
      completed sessions reset to the same unstarted state, from which Start
      is available again. */
  lemma ResetForgets(s1: Session, s2: Session)
    requires s1.evaluation != "" && s2.evaluation != ""
    ensures Reset(s1) == Reset(s2)
    ensures !Reset(s1).started && Valid(Reset(s1))
  {
  }

  /** Reset keeps the invariant. */
  lemma ResetValid(s: Session)
    requires Valid(s)
    ensures Valid(Reset(s))
  {
  }

  /** After a failed evaluation nothing on the page changes the session:
      Start is disabled, the answer form is hidden and the reset button is
      not shown. */
  lemma StuckIsTerminal(s: Session, cfg: Settings, clientReady: bool, reply: Option<string>,
                        answer: string, replies: Replies, now: string, db: Option<Db>, writeOk: bool)
    requires Stuck(s) && ValidCount(cfg.maxQuestions)
    ensures Start(s, cfg, clientReady, reply, db).state == s
    ensures Submit(s, cfg, answer, replies, now, db, writeOk).state == s
    ensures Submit(s, cfg, answer, replies, now, db, writeOk).calls == []
    ensures Reset(s) == s
  {
  }

  // ---------------------------------------------------------------------
  // Whole interviews
  // ---------------------------------------------------------------------

  /** A replies record under which every call that may be made succeeds. */
  predicate Succeeds(r: Replies) {
    Truthy(Stripped(r.next)) && Truthy(Stripped(r.evaluation))
  }

  /** Submitting `answers` one after the other. */
  function SubmitAll(s: Session, cfg: Settings, answers: seq<string>, replies: seq<Replies>, now: string): Session
    requires |replies| == |answers|
    decreases |answers|
  {
    if answers == [] then s
    else SubmitAll(Submit(s, cfg, answers[0], replies[0], now, None, false).state, cfg,
                   answers[1..], replies[1..], now)
  }

  /** One non-blank answer with a provider that answers: the answer is
      recorded, and either the next question waits or the session is
      evaluated with every list at the question count. */
  lemma SuccessfulAnswer(s: Session, cfg: Settings, answer: string, replies: Replies, now: string)
    requires Valid(s) && AcceptsAnswer(s) && !Blank(answer) && Succeeds(replies)
    ensures var t := Submit(s, cfg, answer, replies, now, None, false).state;
            && Valid(t)
            && t.answers == s.answers + [answer]
            && t.maxQuestions == s.maxQuestions
            && (|s.answers| + 1 < s.maxQuestions ==> AcceptsAnswer(t))
            && (|s.answers| + 1 == s.maxQuestions ==>
                  t.evaluation != "" && |t.questions| == s.maxQuestions && |t.feedback| == s.maxQuestions)
  {
    SubmitValid(s, cfg, answer, replies, now, None, false);
    if |s.answers| + 1 < s.maxQuestions {
      NextQuestionAdvances(s, cfg, answer, replies, now, None, false);
    } else {
      EvaluationSuccessSaves(s, cfg, answer, replies, now, None, false);
    }
  }

  lemma ConsAppend<T>(xs: seq<T>, ys: seq<T>)
    requires ys != []
    ensures xs + ys == (xs + [ys[0]]) + ys[1..]
  {
    assert ys == [ys[0]] + ys[1..];
  }

  /** With a provider that always answers, submitting one non-blank answer
      per remaining question ends with an evaluation and the answers
      recorded in order. */
  lemma {:induction false} RemainingAnswersComplete(s: Session, cfg: Settings, answers: seq<string>,
                                                    replies: seq<Replies>, now: string)
    requires Valid(s) && AcceptsAnswer(s)
    requires |answers| == |replies| == s.maxQuestions - |s.answers|
    requires forall i :: 0 <= i < |answers| ==> !Blank(answers[i]) && Succeeds(replies[i])
    ensures var t := SubmitAll(s, cfg, answers, replies, now);
            && t.evaluation != ""
            && t.answers == s.answers + answers
            && |t.questions| == s.maxQuestions
            && |t.feedback| == s.maxQuestions
    decreases |answers|
  {
    var next := Submit(s, cfg, answers[0], replies[0], now, None, false).state;
    assert !Blank(answers[0]) && Succeeds(replies[0]);
    SuccessfulAnswer(s, cfg, answers[0], replies[0], now);
    assert SubmitAll(s, cfg, answers, replies, now) == SubmitAll(next, cfg, answers[1..], replies[1..], now);
    if |s.answers| + 1 < s.maxQuestions {
      forall i | 0 <= i < |answers[1..]|
        ensures !Blank(answers[1..][i]) && Succeeds(replies[1..][i])
      {
        assert answers[1..][i] == answers[i + 1] && replies[1..][i] == replies[i + 1];
      }
      RemainingAnswersComplete(next, cfg, answers[1..], replies[1..], now);
      ConsAppend(s.answers, answers);
    } else {
      assert answers == [answers[0]];
    }
  }

  /** A whole interview from a fresh page: Start with a key, a title and a
      usable first question, then one non-blank answer per question with a
      provider that always answers, ends evaluated. */
  lemma FreshInterviewCompletes(cfg: Settings, first: Option<string>, answers: seq<string>,
                                replies: seq<Replies>, now: string)
    requires ValidCount(cfg.maxQuestions) && cfg.apiKey != "" && cfg.jobTitle != ""
    requires Truthy(Stripped(first))
    requires |answers| == |replies| == cfg.maxQuestions
    requires forall i :: 0 <= i < |answers| ==> !Blank(answers[i]) && Succeeds(replies[i])
    ensures var started := Start(Fresh, cfg, true, first, None).state;
            var t := SubmitAll(started, cfg, answers, replies, now);
            && t.evaluation != "" && t.answers == answers && |t.questions| == cfg.maxQuestions
  {
    var started := Start(Fresh, cfg, true, first, None).state;
    StartValid(Fresh, cfg, true, first, None);
    RemainingAnswersComplete(started, cfg, answers, replies, now);
  }

  // ---------------------------------------------------------------------
  // Any sequence of user actions
  // ---------------------------------------------------------------------

  /** One user action on the page. */
  datatype Action =
    | PressStart(cfg: Settings, clientReady: bool, reply: Option<string>)
    | PressSubmit(cfg: Settings, answer: string, replies: Replies, now: string, writeOk: bool)
    | PressReset

  /** The sidebar only offers counts within bounds. */
  predicate WellFormed(a: Action) {
    a.PressStart? ==> ValidCount(a.cfg.maxQuestions)
  }

  function Perform(s: Session, a: Action, db: Option<Db>): Step
    requires WellFormed(a)
  {
    match a
    case PressStart(cfg, clientReady, reply) => Start(s, cfg, clientReady, reply, db)
    case PressSubmit(cfg, answer, replies, now, writeOk) => Submit(s, cfg, answer, replies, now, db, writeOk)
    case PressReset => Step(Reset(s), [], Silent, db)
  }

  /** The session and the database after performing `actions` in order. */
  function Run(s: Session, actions: seq<Action>, db: Option<Db>): (Session, Option<Db>)
    requires forall i :: 0 <= i < |actions| ==> WellFormed(actions[i])
    decreases |actions|
  {
    if actions == [] then (s, db)
    else
      var st := Perform(s, actions[0], db);
      Run(st.state, actions[1..], st.db)
  }

  /** Whatever the user does, the invariant holds throughout: at most one
      pending question, one feedback entry per answer; and the database is
      only ever appended to. */
  lemma {:induction false} RunKeepsInvariant(s: Session, actions: seq<Action>, db: Option<Db>)
    requires Valid(s)
    requires forall i :: 0 <= i < |actions| ==> WellFormed(actions[i])
    ensures var (t, db') := Run(s, actions, db);
            && Valid(t)
            && |t.answers| <= |t.questions| <= |t.answers| + 1
            && |t.feedback| == |t.answers|
            && (db.None? ==> db'.None?)
            && (db.Some? ==> db'.Some? && db.value <= db'.value)
    decreases |actions|
  {
    if actions != [] {
      var a := actions[0];
      var st := Perform(s, a, db);
      match a {
        case PressStart(cfg, clientReady, reply) => StartValid(s, cfg, clientReady, reply, db);
        case PressSubmit(cfg, answer, replies, now, writeOk) => SubmitValid(s, cfg, answer, replies, now, db, writeOk);
        case PressReset => ResetValid(s);
      }
      assert forall i :: 0 <= i < |actions[1..]| ==> actions[1..][i] == actions[i + 1];
      RunKeepsInvariant(st.state, actions[1..], st.db);
    }
  }

  /** In particular, from the page's first run. */
  lemma EveryRunKeepsInvariant(actions: seq<Action>, db: Option<Db>)
    requires forall i :: 0 <= i < |actions| ==> WellFormed(actions[i])
    ensures Valid(Run(Fresh, actions, db).0)
  {
    FreshValid();
    RunKeepsInvariant(Fresh, actions, db);
  }
}
