/** src/pages/Lesson.tsx: the quiz a learner takes at the end of a lesson, graded locally
    against each question's `correctOption`, and the score, pass mark and points derived. */
module LessonPage {
  import opened Wrappers
  import opened Types
  import Numeric

  /** Whether answer `i` matches question `i`'s correct option; a position without an answer
      (`undefined`) never matches. */
  predicate AnsweredRight(questions: seq<Question>, answers: seq<int>, i: int)
    requires 0 <= i < |questions|
  {
    i < |answers| && answers[i] == questions[i].correctOption
  }

  /** `calculateScore`: `questions.reduce((acc, q, i) => acc + (answers[i] === q.correctOption ? 1 : 0), 0)`,
      accumulated over the questions from the first. */
  function Score(questions: seq<Question>, answers: seq<int>): (n: nat)
    ensures n <= |questions|
  {
    if questions == [] then 0
    else
      var k := |questions| - 1;
      Score(questions[..k], answers) + (if AnsweredRight(questions, answers, k) then 1 else 0)
  }

  /** The positions answered right. */
  ghost function RightPositions(questions: seq<Question>, answers: seq<int>): set<int> {
    set i | 0 <= i < |questions| && AnsweredRight(questions, answers, i)
  }

  /** The score is the number of positions whose answer matches the correct option. */
  lemma {:induction false} ScoreCountsRightAnswers(questions: seq<Question>, answers: seq<int>)
    ensures Score(questions, answers) == |RightPositions(questions, answers)|
  {
    if questions != [] {
      var k := |questions| - 1;
      var prefix := questions[..k];
      ScoreCountsRightAnswers(prefix, answers);
      var before := RightPositions(prefix, answers);
      assert forall i :: 0 <= i < k ==> (AnsweredRight(prefix, answers, i) <==> AnsweredRight(questions, answers, i));
      assert k !in before;
      if AnsweredRight(questions, answers, k) {
        assert RightPositions(questions, answers) == before + {k};
      } else {
        assert RightPositions(questions, answers) == before;
      }
    }
  }

  /** The answer key of a question list. */
  function CorrectAnswers(questions: seq<Question>): (r: seq<int>)
    ensures |r| == |questions|
    ensures forall i :: 0 <= i < |r| ==> r[i] == questions[i].correctOption
  {
    seq(|questions|, i requires 0 <= i < |questions| => questions[i].correctOption)
  }

  /** Answers that match the key at every position score every question. */
  lemma {:induction false} ScoreOfRightAnswers(questions: seq<Question>, answers: seq<int>)
    requires forall i :: 0 <= i < |questions| ==> AnsweredRight(questions, answers, i)
    ensures Score(questions, answers) == |questions|
  {
    if questions != [] {
      var k := |questions| - 1;
      assert forall i :: 0 <= i < k ==> AnsweredRight(questions[..k], answers, i) == AnsweredRight(questions, answers, i);
      ScoreOfRightAnswers(questions[..k], answers);
    }
  }

  /** Answering every question correctly scores every question. */
  lemma ScoreOfAnswerKey(questions: seq<Question>)
    ensures Score(questions, CorrectAnswers(questions)) == |questions|
  {
    ScoreOfRightAnswers(questions, CorrectAnswers(questions));
  }

  /** Answers that miss the key at every position score nothing. */
  lemma {:induction false} ScoreOfWrongAnswers(questions: seq<Question>, answers: seq<int>)
    requires forall i :: 0 <= i < |answers| && i < |questions| ==> answers[i] != questions[i].correctOption
    ensures Score(questions, answers) == 0
  {
    if questions != [] {
      ScoreOfWrongAnswers(questions[..|questions| - 1], answers);
    }
  }

  /** `Math.round((score / questions.length) * 100)`; with no questions this is `NaN` (`None`). */
  function ScorePercentage(score: nat, total: nat): (r: Option<int>)
    ensures r.None? <==> total == 0
    ensures r.Some? && score <= total ==> 0 <= r.value <= 100
    ensures r.Some? ==> 2 * total * r.value <= 200 * score + total < 2 * total * (r.value + 1)
  {
    if total == 0 then None else Some(Numeric.Percent(score, total))
  }

  /** `quiz?.passingScore || 70`. */
  function PassingScore(quiz: Quiz): (t: int)
    ensures quiz.passingScore != 0 ==> t == quiz.passingScore
    ensures quiz.passingScore == 0 ==> t == 70
  {
    if quiz.passingScore == 0 then 70 else quiz.passingScore
  }

  /** `scorePercentage >= threshold`; `NaN` never passes. */
  predicate Passed(percentage: Option<int>, threshold: int): (ok: bool)
    ensures percentage.None? ==> !ok
    ensures percentage.Some? ==> (ok <==> threshold <= percentage.value)
  {
    percentage.Some? && percentage.value >= threshold
  }

  /** `passed ? quiz?.pointsReward || 0 : 0`. */
  function EarnedPoints(passed: bool, pointsReward: int): (p: int)
    ensures passed ==> p == pointsReward
    ensures !passed ==> p == 0
  {
    if passed then pointsReward else 0
  }

  /** Ten questions with pass mark 70: seven right scores 70% and passes, six right scores 60%
      and fails. */
  lemma PassMarkBoundary()
    ensures ScorePercentage(7, 10) == Some(70) && Passed(ScorePercentage(7, 10), 70)
    ensures ScorePercentage(6, 10) == Some(60) && !Passed(ScorePercentage(6, 10), 70)
  {
  }

  /** The page's quiz state for a lesson that has a quiz. The fields are the page's `useState`
      variables; each method is one of its handlers, and its precondition says when the button
      that calls it is on screen and enabled. */
  class QuizAttempt {
    const quiz: Quiz
    var showQuiz: bool
    var currentQuestion: nat
    var selectedAnswer: Option<int>
    var answers: seq<int>
    var showResult: bool
    var isAnswered: bool

    /** Reachable states: one answer per question shown so far, the confirmed answer for the
        current question being the last one recorded, and the result shown only after the last
        question was answered. */
    ghost predicate Valid()
      reads this
    {
      |answers| == currentQuestion + (if isAnswered then 1 else 0) &&
      (currentQuestion == 0 || currentQuestion < |quiz.questions|) &&
      (isAnswered ==> selectedAnswer.Some? && answers[currentQuestion] == selectedAnswer.value) &&
      (showResult ==> isAnswered && currentQuestion == |quiz.questions| - 1) &&
      (!showQuiz ==> currentQuestion == 0 && answers == [] && selectedAnswer.None? && !isAnswered && !showResult)
    }

    /** The question screen is rendered: quiz started, no result yet, and a current question to
        show (a quiz with no questions cannot render it). */
    predicate InQuestionView()
      reads this
    {
      showQuiz && !showResult && currentQuestion < |quiz.questions|
    }

    constructor (quiz: Quiz)
      ensures this.quiz == quiz && Valid()
      ensures !showQuiz && currentQuestion == 0 && selectedAnswer.None? && answers == [] && !showResult && !isAnswered
    {
      this.quiz := quiz;
      showQuiz := false;
      currentQuestion := 0;
      selectedAnswer := None;
      answers := [];
      showResult := false;
      isAnswered := false;
    }

    /** "Iniciar Prova": open the quiz. */
    method Start()
      requires Valid() && !showQuiz
      modifies this
      ensures Valid() && showQuiz
      ensures currentQuestion == 0 && answers == [] && selectedAnswer.None? && !isAnswered && !showResult
    {
      showQuiz := true;
    }

    /** `handleAnswerSelect`: ignored once the current question is confirmed; otherwise the
        clicked option replaces the pending selection. */
    method SelectAnswer(optionIndex: int)
      requires Valid() && InQuestionView()
      requires 0 <= optionIndex < |quiz.questions[currentQuestion].options|
      modifies this
      ensures Valid() && InQuestionView()
      ensures old(isAnswered) ==> selectedAnswer == old(selectedAnswer)
      ensures !old(isAnswered) ==> selectedAnswer == Some(optionIndex)
      ensures currentQuestion == old(currentQuestion) && answers == old(answers) && isAnswered == old(isAnswered)
      ensures showQuiz == old(showQuiz) && showResult == old(showResult)
    {
      if isAnswered {
        return;
      }
      selectedAnswer := Some(optionIndex);
    }

    /** `handleConfirmAnswer`: with no selection nothing happens; otherwise the selection is
        appended to the answers and the question is marked answered. */
    method ConfirmAnswer()
      requires Valid() && InQuestionView() && !isAnswered
      modifies this
      ensures Valid() && InQuestionView()
      ensures old(selectedAnswer).None? ==> answers == old(answers) && !isAnswered
      ensures old(selectedAnswer).Some? ==> answers == old(answers) + [old(selectedAnswer).value] && isAnswered
      ensures currentQuestion == old(currentQuestion) && selectedAnswer == old(selectedAnswer)
      ensures showQuiz == old(showQuiz) && showResult == old(showResult)
    {
      if selectedAnswer.None? {
        return;
      }
      isAnswered := true;
      answers := answers + [selectedAnswer.value];
    }

    /** `handleNextQuestion`: before the last question, move on and clear the selection;
        on the last one, show the result. */
    method NextQuestion()
      requires Valid() && InQuestionView() && isAnswered
      modifies this
      ensures Valid()
      ensures old(currentQuestion) < |quiz.questions| - 1 ==>
        currentQuestion == old(currentQuestion) + 1 && selectedAnswer.None? && !isAnswered && !showResult
      ensures old(currentQuestion) == |quiz.questions| - 1 ==>
        showResult && currentQuestion == old(currentQuestion) && selectedAnswer == old(selectedAnswer) && isAnswered
      ensures answers == old(answers) && showQuiz
    {
      if currentQuestion < |quiz.questions| - 1 {
        currentQuestion := currentQuestion + 1;
        selectedAnswer := None;
        isAnswered := false;
      } else {
        showResult := true;
      }
    }

    /** `calculateScore()` on the current answers. */
    function CurrentScore(): nat
      reads this
    {
      Score(quiz.questions, answers)
    }

    /** `scorePercentage`. */
    function CurrentPercentage(): Option<int>
      reads this
    {
      ScorePercentage(CurrentScore(), |quiz.questions|)
    }

    /** `passed`: never with no questions; always with every answer right and a pass mark of
        at most 100; never with nothing right and a positive pass mark. */
    predicate HasPassed(): (passed: bool)
      reads this
      ensures passed ==> |quiz.questions| > 0
      ensures CurrentScore() == |quiz.questions| > 0 && PassingScore(quiz) <= 100 ==> passed
      ensures CurrentScore() == 0 && PassingScore(quiz) > 0 ==> !passed
    {
      Passed(CurrentPercentage(), PassingScore(quiz))
    }

    /** "Tentar Novamente", offered on the result screen only after a failed attempt: back to
        the first question with no answers. */
    method Retry()
      requires Valid() && showResult && !HasPassed()
      modifies this
      ensures Valid() && showQuiz
      ensures currentQuestion == 0 && answers == [] && selectedAnswer.None? && !isAnswered && !showResult
    {
      showQuiz := true;
      currentQuestion := 0;
      answers := [];
      selectedAnswer := None;
      isAnswered := false;
      showResult := false;
    }
  }

  /** On the result screen every question has exactly one recorded answer, so answer `i` is
      the one confirmed for question `i` and the score lies between 0 and the question count. */
  lemma ResultScreenHasOneAnswerPerQuestion(a: QuizAttempt)
    requires a.Valid() && a.showResult
    ensures |a.answers| == |a.quiz.questions| > 0
    ensures a.CurrentPercentage().Some? && 0 <= a.CurrentPercentage().value <= 100
  {
  }
}
