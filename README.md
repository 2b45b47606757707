# Study community: quiz engine and keyed logs

A model of the two pieces of state-transition logic in the study-community
web application (`function.py`): the per-session exam state machine and
the append-only keyed logs that hold research notes and chat messages.

- `logs.dfy`, module `Logs`: the stores `research_papers` and
  `chat_history` as `map<string, seq<string>>` values. `Get` is
  `dict.get(key, [])` and `Appended` is `setdefault(key, []).append(x)`.
  Lemmas cover one append, a run of appends under one key, and appends
  under distinct keys commuting.
- `site.dfy`, module `Site`: class `Community` holds the two stores as
  fields that the handlers `PublishResearch` and `HandleMessage` update in
  place. `KnowledgeBase`, `Branch`, `ViewResearch`, `ViewBranchResearch` and
  `ChatLog` read them. The static tables `rules` and `knowledge_areas` come
  from a `data` module that is not part of this model. They are constructor
  inputs of abstract content.
- `exam.dfy`, module `Exam`: the quiz. Sampling is modelled by
  `DrawPositions`: some `min(5, n)` distinct positions of the topic's rule
  list. Only its contract is visible to callers, so every draw
  `random.sample` can make is covered. The pure specification is `Quiz`,
  `Answered`, `Run`, `CorrectCount` and `Verdict`. Class `ExamSession`
  holds the session's `questions`, `currentQuestion` and `score`, plus a
  flag `started` for "the session holds these keys at all". It also keeps
  a ghost history of answers, and its `Valid()` invariant ties the fields
  to `Run` over that history.

Two behaviours of `function.py` that the model keeps:
- Starting an exam on a topic missing from `rules` raises no error. The
  handler re-renders the topic form and leaves the session as it was.
- The result page can be requested at any time, finished or not. It shows
  `session.get('score', 0)`.

The quiz reads the same module-level `rules` table that the knowledge-base
and branch pages read (function.py:4). `ExamSession.ExamSystem` takes that
table as an argument. `Site.StartExam` passes it `Community.rules`.

## Model

| member | source | states |
|---|---|---|
| `Logs.Appended` | function.py:72 | Appending under a key adds that key to the store. That key's list reads as its old list (empty if absent) plus the new string. Every other key reads as before. |
| `Logs.AppendedAllInOrder` | function.py:305 | Successive appends under one key extend its list by exactly the appended strings, in call order. Other keys are unchanged and no other key is created. |
| `Logs.FreshKeyLogIsCallOrder` | function.py:305 | For a key never written before, the log read back equals the messages in the order they were sent. |
| `Logs.AppendsToDistinctKeysCommute` | function.py:305 | Appends under two different keys give the same store in either order. |
| `Site.Community.constructor` | function.py:4 | The application starts with the given rule table, taxonomy, research notes and chat logs. |
| `Site.Community.KnowledgeBase` | function.py:22-24 | Returns the branches and the rules of the chosen topic: the stored lists for a known key, the empty list for an unknown one. |
| `Site.Community.Branch` | function.py:46-47 | Returns the rules of the chosen branch, or the empty list when the branch is unknown. |
| `Site.Community.PublishResearch` | function.py:70-72 | The content, the empty string included, becomes the last note of the branch. The list is created if absent. Every other branch reads as before, and only `researchPapers` may change. |
| `Site.Community.ViewResearch` | function.py:96 | Returns the notes of the area, or the empty list for an unknown area. |
| `Site.Community.ViewBranchResearch` | function.py:106 | Returns the notes of the branch, or the empty list for an unknown branch. |
| `Site.Community.HandleMessage` | function.py:303-305 | The message becomes the last entry of the uid's chat log, which is created if needed. Every other uid's log is unchanged, and only `chatHistory` may change. |
| `Site.Community.ChatLog` | function.py:249 | The chat page shows the uid's stored log, or the empty list for an unknown uid. |
| `Site.TwoMessages` | function.py:305 | Two message events for one uid leave its log equal to the old log plus both messages in send order. The research notes are untouched. |
| `Exam.DrawPositions` | function.py:153 | The random draw returns exactly `k` positions, all below the population size and pairwise distinct. |
| `Exam.PickWithoutReplacement` | function.py:153 | Picking from distinct positions takes no more positions than the list has. It never takes a rule more often than the list holds it (multiset inclusion). |
| `Exam.SampleProperties` | function.py:153 | A sample has the requested length, no more than the rule list's length. Every question is a rule of the topic, and the sample is drawn without replacement. |
| `Exam.CorrectCount` | function.py:178 | The number of answers marked correct never exceeds the number of answers. |
| `Exam.RunTotals` | function.py:178-180 | A run of answers keeps the questions, advances the index by exactly one per answer, and adds exactly 20 per "correct" answer and nothing otherwise. |
| `Exam.ScoreCountsCorrectAnswers` | function.py:179-180 | From the start of an exam: index = number of answers, score = 20 × (correct answers), and score ≤ 20 × index. |
| `Exam.AnsweringWhileInProgress` | function.py:180-183 | Every answer was given while the exam was unfinished exactly when there are no more answers than questions. |
| `Exam.FinishedAfterLastQuestion` | function.py:181-182 | The exam is finished (index ≥ question count) exactly when at least as many answers as questions were given. |
| `Exam.InProgressScoreBound` | function.py:179-181 | On a sampled exam answered while in progress, score ≤ 20 × question count ≤ 100. |
| `Exam.PassIffFourCorrect` | function.py:196-197 | The verdict of a run is "Pass" exactly when at least four answers were correct, so a score of exactly 80 passes. |
| `Exam.FewRulesNeverPass` | function.py:153-197 | On a topic with fewer than four rules, an exam answered while in progress always ends in "Fail". |
| `Exam.ReplayAfterFinishPasses` | function.py:177-182 | As written: answers are still counted after the exam finished. Three questions with four "correct" posts score 80 and pass. Five questions with six posts score 120. |
| `Exam.GuardedRunBounded` | function.py:177-182 | Corrected step that ignores answers once finished. Any run stops at the last question and counts 20 per correct answer among the first answers only. It never scores above 20 × question count. |
| `Exam.GuardedRunAgrees` | function.py:177-182 | The corrected step and the written step agree on every run that answers only while the exam is in progress. |
| `Exam.GuardedFewRulesNeverPass` | function.py:153-197 | With the corrected step, a topic with fewer than four rules cannot pass, whatever is posted. |
| `Site.StartExam` | function.py:150-157 | Starting an exam samples the questions from the application's own `rules` table. It redirects exactly when the topic is in that table, and otherwise leaves the session unchanged. |
| `Exam.ExamSession.constructor` | function.py:196 | A fresh session holds no exam and satisfies the session invariant. |
| `Exam.ExamSession.ExamSystem` | function.py:150-157 | On a topic in `rules`: started, index 0, score 0, and the questions are a `min(5, n)` sample of that topic's rules. The previous exam is overwritten, and the handler answers with a redirect. On any other topic nothing changes and there is no redirect. |
| `Exam.ExamSession.TakeExam` | function.py:177-183 | Score rises by 20 exactly for "correct" and is unchanged otherwise. The index rises by exactly 1 and the questions stay. The invariant is kept. The handler redirects to the result when index ≥ question count, and otherwise shows `questions[index]`. |
| `Exam.ExamSession.CurrentQuestion` | function.py:183 | Shows the question at the current index. Requires that index to be in range, since the code indexes out of range otherwise. |
| `Exam.ExamSession.ExamResult` | function.py:195-197 | The score shown is the session's score, or 0 when there is none. The verdict is "Pass" exactly when that score is ≥ 80, and "Fail" otherwise. The score equals 20 × correct answers, and it is ≤ 100 while the index has not passed the question count. |

## Findings

| source | as written | input that shows it | evidently intended | confidence | as-written member | corrected member |
|---|---|---|---|---|---|---|
| function.py:177-182 | A POST to `take_exam` adds points and advances the index without checking that the exam is still running. | Start an exam on a topic with 3 rules. Post "correct" 3 times: the exam finishes. Post "correct" once more, e.g. by resubmitting the form: score 80, "Pass". With 5 questions, 6 posts give score 120. | Answers after the last question are ignored, so the score stays ≤ 20 × question count ≤ 100 and a topic with fewer than 4 rules cannot pass. | not executed; medium (needs a client that re-posts the form) | `Exam.ReplayAfterFinishPasses` | `Exam.GuardedRunBounded` |

## Left out

- `Exam.ExamSession.TakeExam`: it models the handler as written, because the handler has no guard. The bounds of at most 100 and "fewer than four rules never pass" are therefore proved for in-progress runs (`InProgressScoreBound`, `FewRulesNeverPass`) and for the corrected step (`GuardedRunBounded`, `GuardedFewRulesNeverPass`), not for arbitrary post sequences to the written handler.
- `Exam.DrawPositions`: randomness is represented by its contract. Its body returns one admissible draw, and no caller can see which one.
- Flask routing, HTML templates, redirects and the session cookie are I/O and rendering glue. `Site` returns the values a page would render, and `AnswerPage` stands for the redirect-or-question response.
- Missing form fields raise `KeyError` in the code. Every handler's field is a parameter here. `take_exam` on a session with no exam also fails that way, hence `requires started`.
- `Site.Community.HandleMessage`: the socket payload's `uid` and `msg` (function.py:303-304) are arbitrary JSON values in the code, and a missing key raises `KeyError`. The model types both as strings and always has both. Non-string payloads and missing keys are not modelled.
- The socket `join`, `leave` and the live `send` broadcast (function.py:293-306, apart from the log append) are left out. Room membership and delivery belong to a third-party pub/sub library that is not part of this model.
- The payment handler (function.py:209-213) is left out: the `user_balances` ledger, its `float` parsing and arithmetic, and the `f"${amount}"` chat entry. Floating point and string formatting have no faithful counterpart here. Its chat entry is an append of the same shape as `HandleMessage`.
- `learn_system` shows one `random.choice` rule (function.py:119). It keeps no state and is display only, so it is left out.
- Concurrency between HTTP and socket handlers on the shared stores is left out. Every operation is modelled as one atomic step.
- The `data` module's concrete table contents are not part of this model.
