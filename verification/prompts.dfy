/** The three requests the interview sends to the chat-completion provider:
    the next-question request (a system prompt that depends on the interview
    style, the question/answer history as alternating assistant/user turns,
    and a trailing user directive), the per-answer feedback request, and the
    final evaluation request over a numbered transcript. All are pure
    functions of the session's data. */
module Prompts {
  import opened Text

  datatype Role = System | Assistant | User

  /** One `{"role": ..., "content": ...}` entry of a chat request. */
  datatype Message = Message(role: Role, content: string)

  /** One chat-completion request: the model identifier and the ordered
      messages. The token cap and temperature are not modelled. */
  datatype Request = Request(model: string, messages: seq<Message>)

  function Min(a: nat, b: nat): nat {
    if a <= b then a else b
  }

  // ---------------------------------------------------------------------
  // Next-question request
  // ---------------------------------------------------------------------

  /** The two interview-type labels that select a special clause; any other
      label gets the general clause. */
  const TechnicalStyle: string := "Technical"
  const StarStyle: string := "Behavioral (STAR format)"

  const TechnicalClause: string :=
    " This is a technical interview. Ask a technical question related to the job, testing their knowledge and problem-solving skills."
  const StarClause: string :=
    " This is a behavioral interview. Ask a behavioral question that the user should answer using the STAR method. Start your question with 'Tell me about a time when...' or 'Describe a situation where...'"
  const GeneralClause: string :=
    " This is a general interview. Ask a common, non-technical question."

  const InterviewerLead: string := "You are an expert interviewer for a "
  const PositionSuffix: string := " position. "
  const CountLead: string := "You will conduct a mock interview with a total of "
  const CountSuffix: string := " questions. "
  const InterviewerRules: string :=
    "Ask one concise, relevant interview question at a time. Do not number your questions. Base your next question on the candidate's previous answers."

  const FirstQuestionAsk: string := "Please ask me the first question."
  const NextQuestionAsk: string := "Please ask me the next question."

  /** The clause appended to the interviewer prompt for an interview type:
      always one of the three clauses, the general one unless a special
      label is given. */
  function StyleClause(style: string): (r: string)
    ensures r == TechnicalClause || r == StarClause || r == GeneralClause
    ensures style != TechnicalStyle && style != StarStyle ==> r == GeneralClause
  {
    if style == TechnicalStyle then TechnicalClause
    else if style == StarStyle then StarClause
    else GeneralClause
  }

  /** Each clause is chosen for exactly the labels the source tests for:
      the technical clause only for "Technical", the STAR clause only for
      "Behavioral (STAR format)", and the general clause for every other
      label (including the empty one). */
  lemma StyleClauseChoice(style: string)
    ensures StyleClause(style) == TechnicalClause <==> style == TechnicalStyle
    ensures StyleClause(style) == StarClause <==> style == StarStyle
    ensures StyleClause(style) == GeneralClause <==> style != TechnicalStyle && style != StarStyle
  {
    assert |GeneralClause| < |TechnicalClause| < |StarClause|;
  }

  /** The interviewer's system prompt for a job title, total question count
      and interview type: the job title follows the lead-in, and the decimal
      rendering of the count follows the head (`DecimalRoundTrip` reads it
      back). */
  function SystemPrompt(jobTitle: string, total: nat, style: string): (r: string)
    ensures InterviewerLead + jobTitle <= r
    ensures var h := |InterviewerHead(jobTitle)|;
            var d := |Decimal(total)|;
            && h + d <= |r|
            && r[h..h + d] == Decimal(total)
  {
    PrefixChain(InterviewerLead + jobTitle, PositionSuffix, CountLead,
                Decimal(total) + (CountSuffix + InterviewerRules + StyleClause(style)));
    Framed(InterviewerHead(jobTitle), total, CountSuffix + InterviewerRules + StyleClause(style))
  }

  /** The part of the system prompt before the question count. */
  function InterviewerHead(jobTitle: string): string {
    InterviewerLead + jobTitle + PositionSuffix + CountLead
  }

  /** `a` is a prefix of any string that starts with `a + b + c`. */
  lemma PrefixChain(a: string, b: string, c: string, d: string)
    ensures a <= a + b + c + (d)
  {
    assert (a + b + c + d)[..|a|] == a;
  }

  /** `head`, then the decimal rendering of `n`, then `rest`. */
  function Framed(head: string, n: nat, rest: string): (r: string)
    ensures |head| + |Decimal(n)| <= |r|
    ensures r[|head|..|head| + |Decimal(n)|] == Decimal(n)
  {
    var d := Decimal(n);
    var r := head + (d + rest);
    assert forall i | 0 <= i < |d| :: r[|head| + i] == d[i];
    r
  }

  /** Cutting a concatenation at the length of its left part gives both parts back. */
  lemma SplitConcat(a: string, b: string)
    ensures (a + b)[..|a|] == a && (a + b)[|a|..] == b
  {
  }

  /** Two digit strings, each followed by text that does not start with a
      digit, can only be concatenated to the same string if they are equal. */
  lemma DigitRunUnique(d1: string, x: string, d2: string, y: string)
    requires IsDigits(d1) && IsDigits(d2)
    requires x != [] && !('0' <= x[0] <= '9')
    requires y != [] && !('0' <= y[0] <= '9')
    requires d1 + x == d2 + y
    ensures d1 == d2 && x == y
  {
    var c := d1 + x;
    assert forall i :: 0 <= i < |d1| ==> c[i] == d1[i];
    assert forall i :: 0 <= i < |d2| ==> c[i] == d2[i];
    assert c[|d1|] == x[0] && c[|d2|] == y[0];
    assert |d1| == |d2|;
    SplitConcat(d1, x);
    SplitConcat(d2, y);
  }

  /** For a given job title, the system prompt determines the question count
      and the chosen clause: the count is embedded in a recoverable way. */
  lemma SystemPromptDeterminesSettings(jobTitle: string, n: nat, s1: string, m: nat, s2: string)
    requires SystemPrompt(jobTitle, n, s1) == SystemPrompt(jobTitle, m, s2)
    ensures n == m
    ensures StyleClause(s1) == StyleClause(s2)
  {
    var rules := CountSuffix + InterviewerRules;
    var x := rules + StyleClause(s1);
    var y := rules + StyleClause(s2);
    SystemPromptSuffix(jobTitle, n, s1);
    SystemPromptSuffix(jobTitle, m, s2);
    assert x[0] == ' ' && y[0] == ' ';
    DigitRunUnique(Decimal(n), x, Decimal(m), y);
    DecimalInjective(n, m);
    SplitConcat(rules, StyleClause(s1));
    SplitConcat(rules, StyleClause(s2));
  }

  /** What follows the head of the system prompt: the count, the rules and
      the style clause. */
  lemma SystemPromptSuffix(jobTitle: string, n: nat, style: string)
    ensures var head := InterviewerHead(jobTitle);
            var p := SystemPrompt(jobTitle, n, style);
            && |head| <= |p|
            && p[|head|..] == Decimal(n) + (CountSuffix + InterviewerRules + StyleClause(style))
  {
    var rest := CountSuffix + InterviewerRules + StyleClause(style);
    SplitConcat(InterviewerHead(jobTitle), Decimal(n) + rest);
  }

  /** Python's `for q, a in zip(questions, answers)` loop: an assistant
      message with the question, then a user message with the answer, for
      each pair; unpaired trailing entries of the longer list are dropped. */
  function Exchanges(qs: seq<string>, ans: seq<string>): (r: seq<Message>)
    ensures |r| == 2 * Min(|qs|, |ans|)
    ensures forall i :: 0 <= i < Min(|qs|, |ans|) ==>
              r[2 * i] == Message(Assistant, qs[i]) && r[2 * i + 1] == Message(User, ans[i])
    decreases |qs|
  {
    if qs == [] || ans == [] then []
    else [Message(Assistant, qs[0]), Message(User, ans[0])] + Exchanges(qs[1..], ans[1..])
  }

  /** The message list of a next-question request, around the interviewer
      prompt `system` (which `SystemPrompt` renders). */
  function QuestionMessages(system: string, qs: seq<string>, ans: seq<string>): (r: seq<Message>)
    ensures |r| == 2 + 2 * Min(|qs|, |ans|)
    ensures r[0] == Message(System, system)
    ensures forall i :: 0 <= i < Min(|qs|, |ans|) ==>
              r[2 * i + 1] == Message(Assistant, qs[i]) && r[2 * i + 2] == Message(User, ans[i])
    ensures r[|r| - 1] == Message(User, if qs == [] then FirstQuestionAsk else NextQuestionAsk)
  {
    var ask := if qs == [] then FirstQuestionAsk else NextQuestionAsk;
    var history := Exchanges(qs, ans);
    var r := [Message(System, system)] + history + [Message(User, ask)];
    assert forall k :: 0 <= k < |history| ==> r[k + 1] == history[k];
    r
  }

  function Flip(r: Role): Role {
    if r == Assistant then User else Assistant
  }

  /** Roles alternate along `ms`, the first one being `first`. */
  predicate Alternating(ms: seq<Message>, first: Role)
    decreases |ms|
  {
    ms == [] || (ms[0].role == first && Alternating(ms[1..], Flip(first)))
  }

  /** The zipped history alternates assistant and user messages, starting
      with the assistant. */
  lemma {:induction false} ExchangesAlternate(qs: seq<string>, ans: seq<string>)
    ensures Alternating(Exchanges(qs, ans), Assistant)
    decreases |qs|
  {
    if qs != [] && ans != [] {
      var e := Exchanges(qs, ans);
      var rest := Exchanges(qs[1..], ans[1..]);
      ExchangesAlternate(qs[1..], ans[1..]);
      assert e[1..][1..] == rest;
    }
  }

  /** The question request is one system message, an alternating
      assistant/user history that starts with the assistant, and one
      closing user message. */
  lemma QuestionMessagesAlternate(system: string, qs: seq<string>, ans: seq<string>)
    ensures var r := QuestionMessages(system, qs, ans);
            && r[0].role == System
            && Alternating(r[1..|r| - 1], Assistant)
            && r[|r| - 1].role == User
  {
    var r := QuestionMessages(system, qs, ans);
    assert r[1..|r| - 1] == Exchanges(qs, ans);
    ExchangesAlternate(qs, ans);
  }

  // ---------------------------------------------------------------------
  // Feedback request
  // ---------------------------------------------------------------------

  const CoachPrompt: string :=
    "You are an expert interview coach. Provide 2-3 bullet points of constructive, concise feedback on the user's answer to the interview question. Focus on what they did well and how they could improve. Start with 'Here's some feedback on your answer:'"

  const QuestionLabel: string := "Question: "
  const AnswerLabel: string := "\n\nAnswer: "

  /** The feedback request: the fixed coach prompt, then one user message
      holding the labelled question and answer. */
  function FeedbackMessages(question: string, answer: string): (r: seq<Message>)
    ensures |r| == 2
    ensures r[0] == Message(System, CoachPrompt)
    ensures r[1].role == User
    ensures var c := r[1].content;
            var q := |QuestionLabel| + |question|;
            && |c| == q + |AnswerLabel| + |answer|
            && c[..|QuestionLabel|] == QuestionLabel
            && c[|QuestionLabel|..q] == question
            && c[q..q + |AnswerLabel|] == AnswerLabel
            && c[q + |AnswerLabel|..] == answer
  {
    [Message(System, CoachPrompt), Message(User, QuestionLabel + question + AnswerLabel + answer)]
  }

  // ---------------------------------------------------------------------
  // Evaluation request
  // ---------------------------------------------------------------------

  const HiringLead: string := "You are an expert hiring manager for a "
  const HiringTail: string :=
    " position. Your task is to provide a final, overall evaluation of the candidate's performance based on the following interview transcript."
  const TranscriptLead: string := "Here is the interview transcript:\n\n"
  const EvaluationAsk: string :=
    "Please provide a concise, overall evaluation of the candidate's performance. Focus on: \n1. Overall Strengths \n2. Key Areas for Improvement. \n\nProvide your final feedback in clear, constructive bullet points."

  /** The transcript block of the `i`-th pair, counting from 1. */
  function TranscriptEntry(i: nat, q: string, a: string): string {
    "Question " + Decimal(i) + ": " + q + "\nAnswer " + Decimal(i) + ": " + a + "\n\n"
  }

  function Concat(parts: seq<string>): string {
    if parts == [] then "" else parts[0] + Concat(parts[1..])
  }

  lemma {:induction false} ConcatSnoc(parts: seq<string>, p: string)
    ensures Concat(parts + [p]) == Concat(parts) + p
  {
    if parts == [] {
      assert parts + [p] == [p];
    } else {
      assert (parts + [p])[1..] == parts[1..] + [p];
      ConcatSnoc(parts[1..], p);
    }
  }

  /** The numbered entries of the transcript, one per zipped pair. */
  function TranscriptEntries(qs: seq<string>, ans: seq<string>): (r: seq<string>)
    ensures |r| == Min(|qs|, |ans|)
  {
    seq(Min(|qs|, |ans|), k requires 0 <= k < Min(|qs|, |ans|) => TranscriptEntry(k + 1, qs[k], ans[k]))
  }

  /** The transcript the evaluation prompt embeds: empty when no question
      has been answered, and otherwise opening with the first question,
      numbered 1. */
  function Transcript(qs: seq<string>, ans: seq<string>): (r: string)
    ensures r == [] <==> Min(|qs|, |ans|) == 0
    ensures Min(|qs|, |ans|) > 0 ==> "Question 1: " + qs[0] <= r
  {
    var entries := TranscriptEntries(qs, ans);
    if entries == [] then Concat(entries)
    else
      var first := TranscriptEntry(1, qs[0], ans[0]);
      assert Decimal(1) == "1";
      assert entries[0] == first;
      EntryOpens(qs[0], ans[0]);
      assert Concat(entries) == first + Concat(entries[1..]);
      Concat(entries)
  }

  /** The first entry opens with its numbered question. */
  lemma EntryOpens(q: string, a: string)
    ensures "Question 1: " + q <= TranscriptEntry(1, q, a)
  {
    assert Decimal(1) == "1";
    var e := TranscriptEntry(1, q, a);
    var lead := "Question 1: " + q;
    assert forall i | 0 <= i < |lead| :: e[i] == lead[i];
  }

  /** Python's `transcript += ...` loop over `enumerate(zip(questions, answers))`. */
  method BuildTranscript(qs: seq<string>, ans: seq<string>) returns (t: string)
    ensures t == Transcript(qs, ans)
  {
    var entries := TranscriptEntries(qs, ans);
    var n := Min(|qs|, |ans|);
    t := "";
    var i := 0;
    while i < n
      invariant 0 <= i <= n
      invariant t == Concat(entries[..i])
    {
      var e := TranscriptEntry(i + 1, qs[i], ans[i]);
      assert entries[..i + 1] == entries[..i] + [e];
      ConcatSnoc(entries[..i], e);
      t := t + e;
      i := i + 1;
    }
    assert entries[..n] == entries;
  }

  /** Answering the pending question extends the transcript by exactly one
      entry, numbered after the ones already there. */
  lemma TranscriptExtends(qs: seq<string>, ans: seq<string>, q: string, a: string)
    requires |qs| == |ans|
    ensures Transcript(qs + [q], ans + [a]) == Transcript(qs, ans) + TranscriptEntry(|qs| + 1, q, a)
  {
    var before := TranscriptEntries(qs, ans);
    var after := TranscriptEntries(qs + [q], ans + [a]);
    assert after == before + [TranscriptEntry(|qs| + 1, q, a)];
    ConcatSnoc(before, TranscriptEntry(|qs| + 1, q, a));
  }

  /** An unanswered trailing question does not appear in the transcript. */
  lemma TranscriptIgnoresUnpaired(qs: seq<string>, ans: seq<string>)
    ensures Transcript(qs, ans) == Transcript(qs[..Min(|qs|, |ans|)], ans[..Min(|qs|, |ans|)])
  {
    var m := Min(|qs|, |ans|);
    assert TranscriptEntries(qs, ans) == TranscriptEntries(qs[..m], ans[..m]);
  }

  /** The evaluation request: the hiring-manager prompt for the job title,
      then one user message framing the transcript. Feedback is not an input. */
  function EvaluationMessages(jobTitle: string, qs: seq<string>, ans: seq<string>): (r: seq<Message>)
    ensures |r| == 2
    ensures r[0] == Message(System, HiringLead + jobTitle + HiringTail)
    ensures r[1].role == User
    ensures var c := r[1].content;
            var t := |TranscriptLead| + |Transcript(qs, ans)|;
            && |c| == t + |EvaluationAsk|
            && c[..|TranscriptLead|] == TranscriptLead
            && c[|TranscriptLead|..t] == Transcript(qs, ans)
            && c[t..] == EvaluationAsk
  {
    [Message(System, HiringLead + jobTitle + HiringTail),
     Message(User, TranscriptLead + Transcript(qs, ans) + EvaluationAsk)]
  }
}
