/** The quiz engine: a per-session state machine of three values, the
    sampled questions, the index of the current question and the score.
    Starting an exam on a known topic samples up to five of its rules,
    each answer marked "correct" is worth twenty points, and a score of
    eighty or more passes. */
module Exam {

  const QuestionLimit: nat := 5
  const PointsPerCorrect: nat := 20
  const PassMark: nat := 80

  function Min(a: nat, b: nat): nat
  {
    if a <= b then a else b
  }

  // ---------------------------------------------------------------------
  // Drawing questions without replacement

  /** `positions` is a draw of `k` distinct positions of a population of
      size `n`. */
  predicate IsDraw(positions: seq<nat>, n: nat, k: nat)
  {
    && |positions| == k
    && (forall i :: 0 <= i < k ==> positions[i] < n)
    && (forall i, j :: 0 <= i < j < k ==> positions[i] != positions[j])
  }

  /** The elements of `population` at the given positions, in draw order. */
  function Pick(population: seq<string>, positions: seq<nat>): (r: seq<string>)
    requires forall i :: 0 <= i < |positions| ==> positions[i] < |population|
    ensures |r| == |positions|
    ensures forall i :: 0 <= i < |r| ==> r[i] == population[positions[i]]
  {
    seq(|positions|, i requires 0 <= i < |positions| => population[positions[i]])
  }

  /** `picked` is a sample of `k` elements of `population` taken from
      distinct positions, in some order. */
  ghost predicate IsSampleOf(picked: seq<string>, population: seq<string>, k: nat)
  {
    exists positions :: IsDraw(positions, |population|, k) && picked == Pick(population, positions)
  }

  /** The random source: some `k` distinct positions below `n`. Callers
      rely on nothing but this contract, so every draw the random
      generator can make is covered by what is proved about its callers. */
  method DrawPositions(n: nat, k: nat) returns (positions: seq<nat>)
    requires k <= n
    ensures IsDraw(positions, n, k)
  {
    positions := seq(k, i requires 0 <= i < k => i);
  }

  /** Picking from distinct positions never takes an element more often
      than the population holds it: the draw is without replacement. */
  lemma {:induction false} PickWithoutReplacement(population: seq<string>, positions: seq<nat>)
    requires IsDraw(positions, |population|, |positions|)
    ensures |positions| <= |population|
    ensures multiset(Pick(population, positions)) <= multiset(population)
    decreases |positions|
  {
    if positions != [] {
      var k := |positions| - 1;
      var last := positions[k];
      var shrunk := population[..last] + population[last + 1..];
      var shifted := ShiftedPast(positions[..k], last);
      ShiftedPastPicks(population, positions);
      PickWithoutReplacement(shrunk, shifted);
      RemoveAtMultiset(population, last);
      assert Pick(population, positions) == Pick(population, positions[..k]) + [population[last]];
    }
  }

  /** The positions of `rest` renumbered for a population with position
      `gone` removed. */
  function ShiftedPast(rest: seq<nat>, gone: nat): (r: seq<nat>)
    requires forall i :: 0 <= i < |rest| ==> rest[i] != gone
  {
    seq(|rest|, i requires 0 <= i < |rest| => if rest[i] < gone then rest[i] else rest[i] - 1)
  }

  lemma ShiftedPastPicks(population: seq<string>, positions: seq<nat>)
    requires IsDraw(positions, |population|, |positions|) && positions != []
    ensures var k := |positions| - 1;
            var last := positions[k];
            var shrunk := population[..last] + population[last + 1..];
            && IsDraw(ShiftedPast(positions[..k], last), |shrunk|, k)
            && Pick(shrunk, ShiftedPast(positions[..k], last)) == Pick(population, positions[..k])
  {
    var k := |positions| - 1;
    var last := positions[k];
    var shrunk := population[..last] + population[last + 1..];
    var shifted := ShiftedPast(positions[..k], last);
    forall i | 0 <= i < k ensures shifted[i] < |shrunk| && shrunk[shifted[i]] == population[positions[i]] {
      if positions[i] > last {
        assert shrunk[shifted[i]] == population[last + 1..][positions[i] - 1 - last];
      }
    }
  }

  lemma RemoveAtMultiset(population: seq<string>, at: nat)
    requires at < |population|
    ensures multiset(population) == multiset(population[..at] + population[at + 1..]) + multiset{population[at]}
  {
    assert population == population[..at] + [population[at]] + population[at + 1..];
  }

  /** What a sample of a rule list is: of the requested length, made of
      rules of that list, and without replacement. */
  lemma SampleProperties(picked: seq<string>, population: seq<string>, k: nat)
    requires IsSampleOf(picked, population, k)
    ensures |picked| == k <= |population|
    ensures forall i :: 0 <= i < |picked| ==> picked[i] in population
    ensures multiset(picked) <= multiset(population)
  {
    var positions :| IsDraw(positions, |population|, k) && picked == Pick(population, positions);
    PickWithoutReplacement(population, positions);
  }

  // ---------------------------------------------------------------------
  // The session state machine

  /** The three session values of a running exam. */
  datatype Quiz = Quiz(questions: seq<string>, current: nat, score: nat)

  /** The page `take_exam` answers a POST with. */
  datatype AnswerPage = RedirectToResult | ShowQuestion(question: string)

  /** The state right after an exam starts on the given questions. */
  function Begin(questions: seq<string>): Quiz
  {
    Quiz(questions, 0, 0)
  }

  /** The form's `action` field; anything but "correct" scores nothing. */
  predicate IsCorrect(action: string)
  {
    action == "correct"
  }

  /** One answer, as the handler applies it, whether or not the exam has
      already finished. */
  function Answered(q: Quiz, action: string): Quiz
  {
    Quiz(q.questions, q.current + 1, q.score + if IsCorrect(action) then PointsPerCorrect else 0)
  }

  predicate Finished(q: Quiz)
  {
    q.current >= |q.questions|
  }

  /** The state after answering the given actions one after another. */
  function Run(q: Quiz, actions: seq<string>): Quiz
    decreases |actions|
  {
    if actions == [] then q
    else Answered(Run(q, actions[..|actions| - 1]), actions[|actions| - 1])
  }

  lemma RunSnoc(q: Quiz, actions: seq<string>, action: string)
    ensures Run(q, actions + [action]) == Answered(Run(q, actions), action)
  {
    assert (actions + [action])[..|actions|] == actions;
  }

  /** How many of the actions are marked correct. */
  function CorrectCount(actions: seq<string>): (r: nat)
    ensures r <= |actions|
    decreases |actions|
  {
    if actions == [] then 0
    else CorrectCount(actions[..|actions| - 1]) + if IsCorrect(actions[|actions| - 1]) then 1 else 0
  }

  /** The verdict shown for a score. */
  function Verdict(score: int): string
  {
    if score >= PassMark then "Pass" else "Fail"
  }

  /** A run of answers keeps the questions, advances the index once per
      answer and adds twenty points per correct answer. */
  lemma {:induction false} RunTotals(q: Quiz, actions: seq<string>)
    ensures Run(q, actions) == Quiz(q.questions, q.current + |actions|, q.score + PointsPerCorrect * CorrectCount(actions))
    decreases |actions|
  {
    if actions != [] {
      RunTotals(q, actions[..|actions| - 1]);
    }
  }

  /** From the start of an exam: the score is twenty times the number of
      correct answers and at most twenty times the
      index of the current question. */
  lemma ScoreCountsCorrectAnswers(questions: seq<string>, actions: seq<string>)
    ensures Run(Begin(questions), actions).current == |actions|
    ensures Run(Begin(questions), actions).score == PointsPerCorrect * CorrectCount(actions)
    ensures Run(Begin(questions), actions).score <= PointsPerCorrect * Run(Begin(questions), actions).current
  {
    RunTotals(Begin(questions), actions);
  }

  /** Every answer was given while a question was on display (the exam
      had not finished before it) exactly when there are no more answers
      than questions. */
  lemma AnsweringWhileInProgress(questions: seq<string>, actions: seq<string>)
    ensures (forall i :: 0 <= i < |actions| ==> !Finished(Run(Begin(questions), actions[..i])))
        <==> |actions| <= |questions|
  {
    if |actions| <= |questions| {
      forall i | 0 <= i < |actions|
        ensures !Finished(Run(Begin(questions), actions[..i]))
      {
        RunTotals(Begin(questions), actions[..i]);
      }
    } else {
      var i := |questions|;
      RunTotals(Begin(questions), actions[..i]);
      assert Finished(Run(Begin(questions), actions[..i]));
    }
  }

  /** The exam is finished exactly once as many answers as questions have
      been given. */
  lemma FinishedAfterLastQuestion(questions: seq<string>, actions: seq<string>)
    ensures Finished(Run(Begin(questions), actions)) <==> |actions| >= |questions|
  {
    RunTotals(Begin(questions), actions);
  }

  /** While the exam is in progress the score never exceeds twenty points
      per question, and so never exceeds one hundred on a sampled exam. */
  lemma InProgressScoreBound(questions: seq<string>, actions: seq<string>)
    requires |actions| <= |questions| <= QuestionLimit
    ensures Run(Begin(questions), actions).score <= PointsPerCorrect * |questions| <= 100
  {
    RunTotals(Begin(questions), actions);
  }

  /** The verdict of a run from the start is "Pass" exactly when at least
      four answers were marked correct. */
  lemma PassIffFourCorrect(questions: seq<string>, actions: seq<string>)
    ensures Verdict(Run(Begin(questions), actions).score) == "Pass" <==> CorrectCount(actions) >= 4
  {
    RunTotals(Begin(questions), actions);
  }

  /** On a topic with fewer than four rules, an exam answered while in
      progress can only end in "Fail", whatever the answers. */
  lemma FewRulesNeverPass(pool: seq<string>, questions: seq<string>, actions: seq<string>)
    requires IsSampleOf(questions, pool, Min(QuestionLimit, |pool|))
    requires |pool| < 4
    requires |actions| <= |questions|
    ensures Verdict(Run(Begin(questions), actions).score) == "Fail"
  {
    SampleProperties(questions, pool, Min(QuestionLimit, |pool|));
    RunTotals(Begin(questions), actions);
  }

  /** As written, the answer handler does not check that the exam is still
      running: answers submitted again after the exam finished keep adding
      points. Three questions and four answers marked correct give 80, a
      "Pass"; five questions and six such answers give 120. */
  lemma ReplayAfterFinishPasses()
    ensures Finished(Run(Begin(["a", "b", "c"]), ["correct", "correct", "correct"]))
    ensures Run(Begin(["a", "b", "c"]), ["correct", "correct", "correct", "correct"]).score == 80
    ensures Verdict(Run(Begin(["a", "b", "c"]), ["correct", "correct", "correct", "correct"]).score) == "Pass"
    ensures Run(Begin(["a", "b", "c", "d", "e"]), ["correct", "correct", "correct", "correct", "correct", "correct"]).score == 120
  {
    var c6 := ["correct", "correct", "correct", "correct", "correct", "correct"];
    forall n | 0 <= n <= 6
      ensures CorrectCount(c6[..n]) == n
    {
      AllCorrectCount(c6[..n]);
    }
    assert c6[..3] == ["correct", "correct", "correct"];
    assert c6[..4] == ["correct", "correct", "correct", "correct"];
    assert c6[..6] == c6;
    RunTotals(Begin(["a", "b", "c"]), c6[..3]);
    RunTotals(Begin(["a", "b", "c"]), c6[..4]);
    RunTotals(Begin(["a", "b", "c", "d", "e"]), c6);
  }

  lemma {:induction false} AllCorrectCount(actions: seq<string>)
    requires forall i :: 0 <= i < |actions| ==> IsCorrect(actions[i])
    ensures CorrectCount(actions) == |actions|
    decreases |actions|
  {
    if actions != [] {
      AllCorrectCount(actions[..|actions| - 1]);
    }
  }

  /** The intended answer step: once the exam has finished an answer
      changes nothing. */
  function GuardedAnswered(q: Quiz, action: string): Quiz
  {
    if Finished(q) then q else Answered(q, action)
  }

  function GuardedRun(q: Quiz, actions: seq<string>): Quiz
    decreases |actions|
  {
    if actions == [] then q
    else GuardedAnswered(GuardedRun(q, actions[..|actions| - 1]), actions[|actions| - 1])
  }

  /** With the guard, any sequence of answers from the start stops at the
      last question, scores twenty points per correct answer among the
      first |questions| answers and never more than twenty per question. */
  lemma {:induction false} GuardedRunBounded(questions: seq<string>, actions: seq<string>)
    ensures GuardedRun(Begin(questions), actions).questions == questions
    ensures GuardedRun(Begin(questions), actions).current == Min(|actions|, |questions|)
    ensures GuardedRun(Begin(questions), actions).score
         == PointsPerCorrect * CorrectCount(actions[..Min(|actions|, |questions|)])
    ensures GuardedRun(Begin(questions), actions).score <= PointsPerCorrect * |questions|
    decreases |actions|
  {
    if actions != [] {
      var init := actions[..|actions| - 1];
      GuardedRunBounded(questions, init);
      if |actions| <= |questions| {
        assert actions[..|actions|] == actions;
        assert init[..|init|] == init;
        assert GuardedRun(Begin(questions), actions)
            == Answered(GuardedRun(Begin(questions), init), actions[|actions| - 1]);
      } else {
        assert init[..Min(|init|, |questions|)] == actions[..Min(|actions|, |questions|)];
      }
    }
  }

  /** The guarded and the written step agree on every run that answers
      only while the exam is in progress. */
  lemma {:induction false} GuardedRunAgrees(questions: seq<string>, actions: seq<string>)
    requires |actions| <= |questions|
    ensures GuardedRun(Begin(questions), actions) == Run(Begin(questions), actions)
    decreases |actions|
  {
    if actions != [] {
      var init := actions[..|actions| - 1];
      GuardedRunAgrees(questions, init);
      RunTotals(Begin(questions), init);
    }
  }

  /** With the guard, a topic with fewer than four rules cannot pass,
      however many answers are submitted. */
  lemma GuardedFewRulesNeverPass(pool: seq<string>, questions: seq<string>, actions: seq<string>)
    requires IsSampleOf(questions, pool, Min(QuestionLimit, |pool|))
    requires |pool| < 4
    ensures Verdict(GuardedRun(Begin(questions), actions).score) == "Fail"
  {
    SampleProperties(questions, pool, Min(QuestionLimit, |pool|));
    GuardedRunBounded(questions, actions);
  }

  // ---------------------------------------------------------------------
  // The session object

  /** The exam values held in one browser session. `started` says whether
      the session holds them at all; `answers` is the history of answer
      actions since the exam started, kept for the proofs only. */
  class ExamSession {
    var started: bool
    var questions: seq<string>
    var currentQuestion: nat
    var score: nat
    ghost var answers: seq<string>

    function State(): Quiz
      reads this
    {
      Quiz(questions, currentQuestion, score)
    }

    /** A started session holds at most five questions, and its index and
        score are those reached by answering its history from the start. */
    ghost predicate Valid()
      reads this
    {
      started ==> |questions| <= QuestionLimit && State() == Run(Begin(questions), answers)
    }

    /** A fresh session holds no exam. */
    constructor ()
      ensures Valid() && !started && answers == []
    {
      started := false;
      questions := [];
      currentQuestion := 0;
      score := 0;
      answers := [];
    }

    /** POST /exam_system. On a topic of the rules table, draws
        min(5, n) of its n rules from distinct positions, resets the index
        and the score and answers with a redirect; it overwrites whatever
        exam the session held. On any other topic nothing changes. */
    method ExamSystem(rules: map<string, seq<string>>, topic: string) returns (redirected: bool)
      requires Valid()
      modifies this
      ensures Valid()
      ensures redirected <==> topic in rules
      ensures topic in rules ==> && started && currentQuestion == 0 && score == 0 && answers == []
                                 && IsSampleOf(questions, rules[topic], Min(QuestionLimit, |rules[topic]|))
      ensures topic !in rules ==> unchanged(this)
    {
      redirected := topic in rules;
      if redirected {
        var pool := rules[topic];
        var k := Min(QuestionLimit, |pool|);
        var positions := DrawPositions(|pool|, k);
        questions := Pick(pool, positions);
        assert IsDraw(positions, |pool|, k) && questions == Pick(pool, positions);
        currentQuestion := 0;
        score := 0;
        started := true;
        answers := [];
      }
    }

    /** POST /take_exam. Adds twenty points only for "correct", always
        advances the index, then redirects to the result once the index
        reaches the question count and shows the next question otherwise. */
    method TakeExam(action: string) returns (page: AnswerPage)
      requires Valid() && started
      modifies this
      ensures Valid() && started
      ensures answers == old(answers) + [action]
      ensures questions == old(questions)
      ensures currentQuestion == old(currentQuestion) + 1
      ensures score == old(score) + if IsCorrect(action) then PointsPerCorrect else 0
      ensures page == if currentQuestion >= |questions| then RedirectToResult
                      else ShowQuestion(questions[currentQuestion])
    {
      ghost var history := answers;
      RunSnoc(Begin(questions), history, action);
      if IsCorrect(action) {
        score := score + PointsPerCorrect;
      }
      currentQuestion := currentQuestion + 1;
      answers := history + [action];
      if currentQuestion >= |questions| {
        page := RedirectToResult;
      } else {
        page := ShowQuestion(questions[currentQuestion]);
      }
    }

    /** GET /take_exam: the question at the current index. There is no
        question to show for an exam of zero questions or once the exam
        has finished, hence the precondition. */
    method CurrentQuestion() returns (question: string)
      requires started && currentQuestion < |questions|
      ensures question == questions[currentQuestion]
    {
      question := questions[currentQuestion];
    }

    /** GET /exam_result: the score (0 when the session holds none) and
        the verdict, "Pass" exactly when the score reaches 80. */
    method ExamResult() returns (shown: nat, verdict: string)
      requires Valid()
      ensures shown == if started then score else 0
      ensures verdict == "Pass" || verdict == "Fail"
      ensures verdict == "Pass" <==> shown >= PassMark
      ensures started ==> shown == PointsPerCorrect * CorrectCount(answers)
      ensures started && currentQuestion <= |questions| ==> shown <= 100
    {
      shown := if started then score else 0;
      verdict := Verdict(shown);
      if started {
        RunTotals(Begin(questions), answers);
      }
    }
  }
}
