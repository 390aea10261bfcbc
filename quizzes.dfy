/** src/hooks/useQuizzes.ts: quizzes joined with their questions, the quiz of one lesson, and
    the check of a submitted answer against the stored correct option. */
module Quizzes {
  import opened Wrappers
  import opened Backend
  import opened Rows
  import Lists

  /** The `options` column is JSON: either an array of texts or some other JSON value. */
  datatype OptionsField = OptionList(items: seq<string>) | OtherJson

  /** `Array.isArray(q.options) ? q.options : []`. */
  function OptionsOf(f: OptionsField): (r: seq<string>)
    ensures f.OptionList? ==> r == f.items
    ensures f.OtherJson? ==> r == []
  {
    match f
    case OptionList(items) => items
    case OtherJson => []
  }

  datatype QuizRow = QuizRow(id: string, lessonId: string, title: string, passingScore: int, pointsReward: int)

  /** A row of `quiz_questions`, the table that holds the correct option. */
  datatype QuestionRow = QuestionRow(
    id: string, quizId: string, questionText: string, options: OptionsField,
    correctOption: int, explanation: Option<string>, orderIndex: int)

  /** A question as the admin hooks return it: the row with its options normalised. */
  datatype QuizQuestion = QuizQuestion(
    id: string, quizId: string, questionText: string, options: seq<string>,
    correctOption: int, explanation: Option<string>, orderIndex: int)

  datatype QuizWithQuestions = QuizWithQuestions(quiz: QuizRow, questions: seq<QuizQuestion>)

  /** A row of the `quiz_questions_public` view, which has no correct option; a view's
      columns are all nullable. */
  datatype PublicQuestionRow = PublicQuestionRow(
    id: Option<string>, quizId: Option<string>, questionText: Option<string>,
    options: OptionsField, explanation: Option<string>, orderIndex: Option<int>)

  /** A public question with its options normalised (`{ ...q, options }`). */
  datatype PublicQuestion = PublicQuestion(
    id: Option<string>, quizId: Option<string>, questionText: Option<string>,
    options: seq<string>, explanation: Option<string>, orderIndex: Option<int>)

  datatype QuizForTaking = QuizForTaking(quiz: QuizRow, questions: seq<PublicQuestion>)

  /** `{ ...q, options: Array.isArray(q.options) ? q.options : [] }`: only the options change. */
  function Normalise(q: QuestionRow): (r: QuizQuestion)
    ensures r.options == OptionsOf(q.options)
    ensures r.id == q.id && r.quizId == q.quizId && r.questionText == q.questionText
    ensures r.correctOption == q.correctOption && r.explanation == q.explanation && r.orderIndex == q.orderIndex
  {
    QuizQuestion(q.id, q.quizId, q.questionText, OptionsOf(q.options), q.correctOption, q.explanation, q.orderIndex)
  }

  function NormalisePublic(q: PublicQuestionRow): (r: PublicQuestion)
    ensures r.options == OptionsOf(q.options)
    ensures r.id == q.id && r.quizId == q.quizId && r.questionText == q.questionText
    ensures r.explanation == q.explanation && r.orderIndex == q.orderIndex
  {
    PublicQuestion(q.id, q.quizId, q.questionText, OptionsOf(q.options), q.explanation, q.orderIndex)
  }

  /** The question rows that carry the quiz's id, in the order they were read. */
  function OwnRows(quizId: string, rows: seq<QuestionRow>): (own: seq<QuestionRow>)
    ensures forall q :: q in own <==> q in rows && q.quizId == quizId
    ensures |own| <= |rows| && Lists.IsSublist(own, rows)
  {
    var p := (q: QuestionRow) => q.quizId == quizId;
    Lists.FilterIsSublist(rows, p);
    Lists.Filter(rows, p)
  }

  /** The question rows of one quiz, normalised one by one, in the order they were read. */
  function QuestionsOf(quizId: string, rows: seq<QuestionRow>): (r: seq<QuizQuestion>)
    ensures |r| == |OwnRows(quizId, rows)| <= |rows|
    ensures forall i :: 0 <= i < |r| ==> r[i] == Normalise(OwnRows(quizId, rows)[i])
  {
    var own := OwnRows(quizId, rows);
    seq(|own|, i requires 0 <= i < |own| => Normalise(own[i]))
  }

  /** The query function of `useQuizzes`: an error from either read aborts with it; otherwise
      every quiz, in the order read, with its questions. */
  function UseQuizzes(quizzesQ: Reply<seq<QuizRow>>, questionsQ: Reply<seq<QuestionRow>>): (r: Result<seq<QuizWithQuestions>>)
    ensures quizzesQ.error.Some? ==> r == Err(quizzesQ.error.value)
    ensures quizzesQ.error.None? && questionsQ.error.Some? ==> r == Err(questionsQ.error.value)
    ensures r.Ok? <==> quizzesQ.error.None? && questionsQ.error.None?
    ensures r.Ok? ==> |r.value| == |RowsOf(quizzesQ)|
    ensures r.Ok? ==> forall i :: 0 <= i < |r.value| ==>
      r.value[i].quiz == RowsOf(quizzesQ)[i] && r.value[i].questions == QuestionsOf(RowsOf(quizzesQ)[i].id, RowsOf(questionsQ))
  {
    if quizzesQ.error.Some? then Err(quizzesQ.error.value)
    else if questionsQ.error.Some? then Err(questionsQ.error.value)
    else
      var quizzes := RowsOf(quizzesQ);
      var questions := RowsOf(questionsQ);
      Ok(seq(|quizzes|, i requires 0 <= i < |quizzes| => QuizWithQuestions(quizzes[i], QuestionsOf(quizzes[i].id, questions))))
  }

  /** A quiz holds exactly its own questions: every row with its id appears, normalised, and
      everything it holds is the normalised form of such a row. */
  lemma QuestionsOfExactly(quizId: string, rows: seq<QuestionRow>)
    ensures forall q :: q in rows && q.quizId == quizId ==> Normalise(q) in QuestionsOf(quizId, rows)
    ensures forall x :: x in QuestionsOf(quizId, rows) ==> exists q :: q in rows && q.quizId == quizId && x == Normalise(q)
    ensures forall x :: x in QuestionsOf(quizId, rows) ==> x.quizId == quizId
  {
    var own := OwnRows(quizId, rows);
    var r := QuestionsOf(quizId, rows);
    forall q | q in rows && q.quizId == quizId ensures Normalise(q) in r {
      assert q in own;
      var i :| 0 <= i < |own| && own[i] == q;
      assert r[i] == Normalise(q);
    }
    forall x | x in r ensures exists q :: q in rows && q.quizId == quizId && x == Normalise(q) {
      var i :| 0 <= i < |r| && r[i] == x;
      assert own[i] in own;
    }
  }

  /** The query function of `useQuizForLesson`. No lesson id, or no quiz for it, gives null;
      an error from either read aborts with it. `questionsQ` is the view's reply, already
      restricted to the quiz and ordered by `order_index`. */
  function UseQuizForLesson(lessonId: Option<string>, quizQ: Reply<QuizRow>, questionsQ: Reply<seq<PublicQuestionRow>>): (r: Result<Option<QuizForTaking>>)
    ensures !Present(lessonId) ==> r == Ok(None)
    ensures Present(lessonId) && quizQ.error.Some? ==> r == Err(quizQ.error.value)
    ensures Present(lessonId) && quizQ.error.None? && quizQ.data.None? ==> r == Ok(None)
    ensures Present(lessonId) && quizQ.error.None? && quizQ.data.Some? && questionsQ.error.Some? ==> r == Err(questionsQ.error.value)
    ensures r.Ok? && r.value.Some? <==>
      Present(lessonId) && quizQ.error.None? && quizQ.data.Some? && questionsQ.error.None?
    ensures r.Ok? && r.value.Some? ==>
      r.value.value.quiz == quizQ.data.value &&
      |r.value.value.questions| == |RowsOf(questionsQ)| &&
      forall i :: 0 <= i < |RowsOf(questionsQ)| ==> r.value.value.questions[i] == NormalisePublic(RowsOf(questionsQ)[i])
  {
    if !Present(lessonId) then Ok(None)
    else if quizQ.error.Some? then Err(quizQ.error.value)
    else if quizQ.data.None? then Ok(None)
    else if questionsQ.error.Some? then Err(questionsQ.error.value)
    else
      var rows := RowsOf(questionsQ);
      Ok(Some(QuizForTaking(quizQ.data.value, seq(|rows|, i requires 0 <= i < |rows| => NormalisePublic(rows[i])))))
  }

  /** The stored answer of a question (`select('correct_option, explanation')`). */
  datatype AnswerKey = AnswerKey(correctOption: int, explanation: Option<string>)

  datatype Verdict = Verdict(isCorrect: bool, correctOption: int, explanation: Option<string>)

  /** `useVerifyQuizAnswer`: the `.single()` read either yields the stored row or fails, and a
      failure aborts with its error. The answer is correct exactly when the selected option
      is the stored one, and the stored option and explanation are returned. */
  function VerifyAnswer(stored: Result<AnswerKey>, selectedOption: int): (r: Result<Verdict>)
    ensures stored.Err? ==> r == Err(stored.error)
    ensures stored.Ok? ==> r.Ok?
    ensures r.Ok? ==> (r.value.isCorrect <==> selectedOption == stored.value.correctOption)
    ensures r.Ok? ==> r.value.correctOption == stored.value.correctOption && r.value.explanation == stored.value.explanation
  {
    match stored
    case Err(e) => Err(e)
    case Ok(key) => Ok(Verdict(key.correctOption == selectedOption, key.correctOption, key.explanation))
  }

  /** Selecting the option a verdict reports as correct is judged correct. */
  lemma VerifyReportedOption(key: AnswerKey, selectedOption: int)
    ensures VerifyAnswer(Ok(key), VerifyAnswer(Ok(key), selectedOption).value.correctOption).value.isCorrect
  {
  }
}
