# Mock interview session — a Dafny model

This project models the core of a Streamlit mock-interview app. The app asks
a configurable number of interview questions for a job title and an
interview type. It collects an answer to each question, asks a language
model for short feedback on every answer, and finally asks it for an
overall evaluation. The finished interview is stored in a Firebase
Realtime Database, and a history page lists the stored interviews newest
first.

The model has five modules:

- `Wrappers`: the `Option` type, used for absent values (a failed
  completion call, a missing database reference, a missing dictionary key).
- `Text`: the Python string behaviour the logic relies on.
  - `str.strip()` over Python's white-space set.
  - The decimal rendering of an `int` in an f-string.
  - Python's code-point ordering of `str`.
- `Prompts`: the three chat requests, built exactly as `utils.py` builds
  them.
  - `generate_question`: system prompt, zipped history, closing directive.
  - `get_feedback_for_answer`.
  - `evaluate_answers`, with its numbered transcript.
- `Store`: `store_session` as an append to a sequence of records, and the
  history page's listing, a stable sort on the timestamp string in
  descending order.
- `Interview`: the `st.session_state` fields of `run_interview_app` and the
  three actions that change them.
  - "Start Interview".
  - "Submit Answer".
  - "Start a New Interview".

  `Interview.Start` and `Interview.Submit` are pure functions from the old
  state to a `Step`. `Interview.Reset` makes no call, shows nothing and
  writes nothing, so it maps a `Session` to a `Session`; `Interview.Perform`
  wraps it in a `Step` when actions are sequenced. A `Step` holds:
  - the new state;
  - the completion calls made, in order;
  - the notice raised;
  - the database after any write.

  The reply to each completion call is a parameter: the raw text, or `None`
  for any failure. The model strips it and tests it for truthiness, as the
  source does.

The invariant `Interview.Valid` holds in every reachable state. It says:

- there is at most one pending question;
- there is one feedback entry per answer;
- there are never more questions than the snapshot count;
- an evaluation exists only once every question has been answered.

`Interview.RunKeepsInvariant` shows that this holds after any sequence of
user actions. It also shows that the database is only ever appended to.

### Behaviour of the code worth knowing

- **A failed final evaluation is not retried.** The last answer and its
  feedback stay (`app.py:461-462`), and no action can leave that state:
  - the form is hidden, since no question is pending (`app.py:395`);
  - Start is disabled (`app.py:337`);
  - the reset button is shown only once an evaluation exists
    (`app.py:470-484`).

  The error raised at `app.py:462` is also lost. Every answer has been
  given by then, so the page reruns at `app.py:464-465`, and the stuck
  page shows no error. `Interview.EvaluationFailureSticks` and
  `Interview.StuckIsTerminal` state this behaviour.
- **Every accepted answer gets exactly one feedback entry.** A failed
  feedback call appends `None` (`app.py:412`), so the feedback list is
  always as long as the answer list.

## Model

| member | source | states |
|---|---|---|
| Text.Strip | app.py:401 | The result is empty exactly when every character of the input is Python white space, and otherwise neither starts nor ends with white space. |
| Text.StripUnique | utils.py:136 | The stripped text is the unique infix that has only white space around it and none at its own ends. |
| Text.StripFixedPoint | utils.py:136 | `strip()` leaves a string unchanged exactly when it neither starts nor ends with white space. |
| Text.StripIdempotent | utils.py:136 | Stripping an already stripped reply changes nothing. |
| Text.Decimal | utils.py:97 | The f-string rendering of a count is a non-empty run of decimal digits, with a leading zero only for zero. |
| Text.DecimalRoundTrip | utils.py:97 | Reading the rendered digits back gives the count. |
| Text.StrLessTotal | app.py:264-268 | Python string comparison orders any two different strings one way or the other. |
| Text.StrLessTransitive | app.py:264-268 | Python string comparison is transitive. |
| Prompts.StyleClause | utils.py:103-116 | The clause is always one of the three, and it is the general clause for any label other than "Technical" and "Behavioral (STAR format)". |
| Prompts.StyleClauseChoice | utils.py:103-116 | The technical clause is chosen exactly for "Technical", the STAR clause exactly for "Behavioral (STAR format)", and the general clause for every other type. |
| Prompts.SystemPrompt | utils.py:95-101 | The interviewer prompt opens with the fixed lead-in followed by the job title, and the decimal rendering of the question count follows the head. |
| Prompts.SystemPromptDeterminesSettings | utils.py:95-116 | For one job title, equal interviewer prompts have equal question counts and the same style clause. |
| Prompts.Exchanges | utils.py:120-122 | The history holds two messages per zipped pair, the question as assistant and the answer as user, in order; unpaired trailing entries are dropped. |
| Prompts.QuestionMessages | utils.py:118-127 | The request is the given system prompt, then the zipped history, then one user message asking for the first question when there are no previous questions and for the next one otherwise. |
| Prompts.QuestionMessagesAlternate | utils.py:118-127 | After the system message the roles alternate assistant/user, and the request ends with a user message. |
| Prompts.FeedbackMessages | utils.py:157-172 | The feedback request is the coach prompt, then one user message from which the labelled question and answer can be cut back out. |
| Prompts.Transcript | utils.py:197-199 | The transcript is empty exactly when no question has been answered; otherwise it opens with the first question, numbered 1. |
| Prompts.BuildTranscript | utils.py:197-199 | The accumulating loop produces the concatenation of one numbered entry per zipped pair. |
| Prompts.TranscriptExtends | utils.py:197-199 | Answering the pending question adds exactly one entry, numbered one past the previous ones, at the end of the transcript. |
| Prompts.TranscriptIgnoresUnpaired | utils.py:198 | A trailing unanswered question does not appear in the transcript. |
| Prompts.EvaluationMessages | utils.py:191-211 | The evaluation request is the hiring-manager prompt for the job title, then one user message holding the lead-in, the transcript and the closing request, in that order; feedback is not part of it. |
| Store.StoreSession | utils.py:227-237 | Without a database reference nothing is written. With one, the record is appended when the write succeeds, the stored records stay unchanged, and a failed write leaves the store as it was. |
| Store.NewestFirst | app.py:264-268 | The sorted listing holds exactly the stored records (a permutation), no more and no fewer. |
| Store.NewestFirstIsOrdered | app.py:264-268 | The listing never places a record before one with a larger timestamp string. |
| Store.NewestFirstStable | app.py:264-268 | Records that share a timestamp keep their stored order, as Python's stable sort keeps them. |
| Store.MissingTimestampLast | app.py:266 | A record without a timestamp is listed after every record with a non-empty timestamp. |
| Store.ShowHistory | app.py:252-268 | Without a database the page reports that it is not connected, and an empty store gives the no-interviews notice. Otherwise it lists a permutation of the stored records, ordered newest first. |
| Store.StoredRecordListed | utils.py:234 | A record that `store_session` has written appears in the history listing. |
| Interview.Start | app.py:337-368 | A call is made exactly when the interview is not started, a key and a title are given and the client exists. Start clears the lists, snapshots the title and count, and starts the interview exactly when the stripped first question is non-empty. |
| Interview.StartValid | app.py:337-366 | Start keeps the session invariant. |
| Interview.StartFailureLeavesUnstarted | app.py:361-366 | A failed first question leaves the session unstarted with empty lists, so Start can be pressed again. |
| Interview.Submit | app.py:391-467 | A submission outside the answer form, or with a blank answer, changes nothing. Otherwise answers and feedback grow in lockstep, questions only grow by one at the end, the snapshot fields are kept, the store is only appended to, and a write happens only when an evaluation is first recorded. |
| Interview.SubmitValid | app.py:391-462 | Submitting keeps the session invariant: at most one pending question, one feedback entry per answer, never more questions than the count. |
| Interview.BlankAnswerIsNoOp | app.py:400-467 | An answer that is empty after stripping changes nothing, makes no call and only warns. |
| Interview.SubmitCalls | app.py:402-447 | An accepted answer first asks for feedback on that question and answer. It then asks for the next question, over the full history including the new answer, or for the evaluation once the count is reached. |
| Interview.NextQuestionRequestShape | app.py:419-427 | The next-question request pairs every question with its answer, ending with the new answer and the "next question" directive. |
| Interview.EvaluationOnlyAtLimit | app.py:416-447 | The evaluation is requested exactly when an accepted, non-blank answer brings the answer count up to the question count. |
| Interview.NextQuestionFailureRollsBack | app.py:429-437 | When the next question does not come back, the state is exactly the state before the submission. |
| Interview.NextQuestionAdvances | app.py:402-430 | A returned next question records the answer, its feedback and the new question, and nothing else changes. |
| Interview.EvaluationSuccessSaves | app.py:448-460 | A returned evaluation completes the session. A record holding the full lists, the display name and the model is appended to the store; without a database nothing is written. |
| Interview.EvaluationFailureSticks | app.py:461-462 | A failed evaluation keeps the last answer and its feedback, writes nothing and leaves the session stuck. |
| Interview.CallsIgnoreFeedback | app.py:416-447 | The calls a submission makes, and so the requests they render, are the same whatever feedback is stored. |
| Interview.SubmitUsesSnapshot | app.py:419-447 | A submission does not read the sidebar's current job title or question count: the title and count come from the Start snapshot. |
| Interview.DisplayName | app.py:451 | The stored user name is the entered name when one is given, and "Anonymous" otherwise; it is never empty. |
| Interview.Reset | app.py:470-484 | The reset is only offered once an evaluation exists, and then it returns to the initial unstarted state with count 3. |
| Interview.ResetForgets | app.py:482-484 | Any two completed sessions reset to the same valid, unstarted state. |
| Interview.StuckIsTerminal | app.py:337-484 | In the state a failed evaluation leaves, no Start, Submit or Reset action changes the session. |
| Interview.RemainingAnswersComplete | app.py:391-462 | With a provider that always answers, one non-blank answer per remaining question ends evaluated, with the answers recorded in order and full question and feedback lists. |
| Interview.FreshInterviewCompletes | app.py:327-462 | From a fresh page, a successful Start followed by one non-blank answer per question, with a provider that always answers, ends evaluated with exactly those answers. |
| Interview.RunKeepsInvariant | app.py:327-484 | After any sequence of Start, Submit and Reset actions the invariant holds, and the database has only been appended to. |

## Left out

- The Streamlit rendering is not modelled: titles, chat bubbles, spinners, expanders and `st.rerun()`. The chat history display (`app.py:370-387`) and the per-record rendering of the history page (`app.py:270-305`) only render state.
- The notices are modelled as the `Notice` enumeration, not as their message texts.
- Notices are recorded as a transition raises them, not as they stay on screen. A notice raised just before `st.rerun()` is wiped by the rerun (`app.py:464-465`). This happens to `EvaluationFailed` after a failed final evaluation, and to the success or warning message of `store_session`, which the model does not record at all.
- `init_firebase` and `get_openrouter_client` are not modelled, because they are I/O. Client creation is the boolean parameter `clientReady`, and the database reference is an `Option`.
- The OpenRouter completion call is a parameter: the raw reply, or `None`. The distinct exception kinds (authentication, rate limit, other) all become `None`, and the error text they show is not modelled.
- `max_tokens` and `temperature` are not modelled, since they do not affect the session state.
- The UTC clock `datetime.utcnow().isoformat()` is the parameter `now`.
- The history page's `datetime.fromisoformat` display formatting is not modelled.
- The model does not prove that ISO timestamps order chronologically as strings.
- Firebase push identifiers are not modelled. The store is the sequence of records in push order, and the history page's `dict` is read in that order.
- Firebase's dropping of `null` feedback entries is not modelled.
- The history page's exception handler for a failed read is not modelled.
- The sidebar and the page navigation (`main`) are not modelled. The bounds of the question-count input are the `ValidCount` precondition of `Interview.Start`.
- The `job_title` key, which does not exist before the first Start, is modelled as the empty string.
- `st.session_state.clear()` is modelled as returning to the initial state, which the next run of the page creates (`app.py:327-334`).
- Interview.Start: the source has no error path for the question count. The sidebar's number input keeps it within 1..10 (`app.py:520-525`), and the model states that bound as the `ValidCount` precondition.
