/** src/components/admin/QuizManager.tsx: the admin panel that creates a lesson's quiz and its
    questions. The checks and defaults applied to the two forms are pure functions; the panel's
    form state is a class whose handlers submit, and reset the form after a successful create. */
module QuizManager {
  import opened Wrappers
  import opened Rows
  import Lists
  import Numeric
  import Quizzes

  /** `quizForm`: the score fields are the text typed into number inputs. */
  datatype QuizForm = QuizForm(title: string, passingScore: string, pointsReward: string)

  /** `questionForm`; `correctOption` is the option button last clicked, as a 0-based index. */
  datatype QuestionForm = QuestionForm(
    questionText: string, option1: string, option2: string, option3: string, option4: string,
    correctOption: int, explanation: string)

  const DefaultQuizForm := QuizForm("", "70", "100")
  const DefaultQuestionForm := QuestionForm("", "", "", "", "", 0, "")

  /** The payload of `createQuiz.mutateAsync`. */
  datatype NewQuiz = NewQuiz(lessonId: string, title: string, passingScore: int, pointsReward: int)

  /** The payload of `createQuestion.mutateAsync`. */
  datatype NewQuestion = NewQuestion(quizId: string, questionText: string, options: seq<string>, correctOption: int, explanation: Option<string>)

  const QuizTitleMissing := "Preencha o título do quiz"
  const QuestionFieldsMissing := "Preencha a pergunta e pelo menos 2 opções"
  const CorrectOptionInvalid := "Selecione uma opção correta válida"

  /** The checks of `handleCreateQuiz` before it writes: an empty title is refused; the scores
      are `parseInt(..) || 70` and `parseInt(..) || 100`. */
  function QuizRequest(lessonId: string, form: QuizForm): (r: Result<NewQuiz>)
    ensures r.Err? <==> form.title == ""
    ensures r.Err? ==> r.error == QuizTitleMissing
    ensures r.Ok? ==> r.value.lessonId == lessonId && r.value.title == form.title
    ensures r.Ok? ==> r.value.passingScore == Numeric.IntOr(form.passingScore, 70)
    ensures r.Ok? ==> r.value.pointsReward == Numeric.IntOr(form.pointsReward, 100)
  {
    if form.title == "" then Err(QuizTitleMissing)
    else Ok(NewQuiz(lessonId, form.title, Numeric.IntOr(form.passingScore, 70), Numeric.IntOr(form.pointsReward, 100)))
  }

  /** A non-zero score typed as its decimal text is stored as typed; text that does not start
      with a number, and zero, fall back to the defaults. */
  lemma QuizScoresAsTyped(lessonId: string, title: string, passing: int, reward: int)
    requires title != "" && passing != 0 && reward != 0
    ensures QuizRequest(lessonId, QuizForm(title, Numeric.IntString(passing), Numeric.IntString(reward))) ==
      Ok(NewQuiz(lessonId, title, passing, reward))
  {
    Numeric.ParseIntString(passing);
    Numeric.ParseIntString(reward);
  }

  lemma QuizScoresFallBack(lessonId: string, title: string, passing: string, reward: string)
    requires title != ""
    requires Numeric.ParseInt(passing).None? || Numeric.ParseInt(passing) == Some(0)
    requires Numeric.ParseInt(reward).None? || Numeric.ParseInt(reward) == Some(0)
    ensures QuizRequest(lessonId, QuizForm(title, passing, reward)) == Ok(NewQuiz(lessonId, title, 70, 100))
  {
  }

  /** One option field as `filter(Boolean)` keeps it: a filled field stays, an empty one goes. */
  function Kept(option: string): (r: seq<string>)
    ensures |r| == (if option != "" then 1 else 0) && (r != [] ==> r[0] == option)
    ensures forall o :: o in r <==> o != "" && o == option
  {
    if option == "" then [] else [option]
  }

  /** Keeping or dropping one more field in front keeps the order of the fields. */
  lemma KeptSublist(option: string, kept: seq<string>, fields: seq<string>)
    requires Lists.IsSublist(kept, fields)
    ensures Lists.IsSublist(Kept(option) + kept, [option] + fields)
  {
    if option == "" {
      assert ([option] + fields)[1..] == fields;
      Lists.SublistSkip(kept, [option] + fields);
      assert Kept(option) + kept == kept;
    } else {
      assert (Kept(option) + kept)[1..] == kept;
    }
  }

  /** `[option1, option2, option3, option4].filter(Boolean)`: the filled fields, each once per
      field, in field order. */
  function StoredOptions(form: QuestionForm): (r: seq<string>)
    ensures forall o :: o in r <==> o != "" && (o == form.option1 || o == form.option2 || o == form.option3 || o == form.option4)
    ensures Lists.IsSublist(r, [form.option1, form.option2, form.option3, form.option4])
    ensures |r| == (if form.option1 != "" then 1 else 0) + (if form.option2 != "" then 1 else 0) +
      (if form.option3 != "" then 1 else 0) + (if form.option4 != "" then 1 else 0)
    ensures form.option1 != "" && form.option2 != "" ==> |r| >= 2 && r[0] == form.option1 && r[1] == form.option2
  {
    KeptInFieldOrder(form.option1, form.option2, form.option3, form.option4);
    Kept(form.option1) + (Kept(form.option2) + (Kept(form.option3) + Kept(form.option4)))
  }

  lemma KeptInFieldOrder(o1: string, o2: string, o3: string, o4: string)
    ensures Lists.IsSublist(Kept(o1) + (Kept(o2) + (Kept(o3) + Kept(o4))), [o1, o2, o3, o4])
  {
    var last := Kept(o4);
    KeptSublist(o4, [], []);
    assert last + [] == last && [o4] + [] == [o4];
    KeptSublist(o3, last, [o4]);
    KeptSublist(o2, Kept(o3) + last, [o3, o4]);
    KeptSublist(o1, Kept(o2) + (Kept(o3) + last), [o2, o3, o4]);
  }

  /** The checks of `handleCreateQuestion` before it writes: the question and its first two
      options are required, the options stored are the filled ones in order, and the chosen
      index must lie within them. */
  function QuestionRequest(quizId: string, form: QuestionForm): (r: Result<NewQuestion>)
    ensures form.questionText == "" || form.option1 == "" || form.option2 == "" ==> r == Err(QuestionFieldsMissing)
    ensures form.questionText != "" && form.option1 != "" && form.option2 != "" && form.correctOption >= |StoredOptions(form)| ==>
      r == Err(CorrectOptionInvalid)
    ensures r.Ok? <==> form.questionText != "" && form.option1 != "" && form.option2 != "" && form.correctOption < |StoredOptions(form)|
    ensures r.Ok? ==> r.value.quizId == quizId && r.value.questionText == form.questionText
    ensures r.Ok? ==> r.value.options == StoredOptions(form) && 2 <= |r.value.options| <= 4
    ensures r.Ok? ==> r.value.correctOption == form.correctOption < |r.value.options|
    ensures r.Ok? ==> r.value.explanation == NonEmpty(Some(form.explanation))
  {
    if form.questionText == "" || form.option1 == "" || form.option2 == "" then Err(QuestionFieldsMissing)
    else
      var options := StoredOptions(form);
      if form.correctOption >= |options| then Err(CorrectOptionInvalid)
      else Ok(NewQuestion(quizId, form.questionText, options, form.correctOption, NonEmpty(Some(form.explanation))))
  }

  /** An accepted question, once stored and read back, can be answered: its correct index
      names one of its options (given the form only holds indices the option buttons set). */
  lemma AcceptedQuestionIsAnswerable(quizId: string, form: QuestionForm)
    requires 0 <= form.correctOption < 4
    requires QuestionRequest(quizId, form).Ok?
    ensures var q := QuestionRequest(quizId, form).value;
      0 <= q.correctOption < |Quizzes.OptionsOf(Quizzes.OptionList(q.options))|
  {
  }

  /** As written, blank options are dropped before the index is checked, so with option 3 left
      blank and option 4 filled, option 4 is stored at index 2: choosing the fourth button is
      refused, and choosing the (blank) third button marks option 4 correct. */
  lemma BlankThirdOptionShiftsFourth(quizId: string, text: string, o1: string, o2: string, o4: string, explanation: string)
    requires text != "" && o1 != "" && o2 != "" && o4 != ""
    ensures StoredOptions(QuestionForm(text, o1, o2, "", o4, 2, explanation)) == [o1, o2, o4]
    ensures QuestionRequest(quizId, QuestionForm(text, o1, o2, "", o4, 3, explanation)) == Err(CorrectOptionInvalid)
    ensures var r := QuestionRequest(quizId, QuestionForm(text, o1, o2, "", o4, 2, explanation));
      r.Ok? && r.value.options[r.value.correctOption] == o4
  {
  }

  /** `quizzes.find((q) => q.lesson_id === lessonId)`. */
  function LessonQuiz(quizzes: seq<Quizzes.QuizWithQuestions>, lessonId: string): (r: Option<Quizzes.QuizWithQuestions>)
    ensures r.None? <==> forall i :: 0 <= i < |quizzes| ==> quizzes[i].quiz.lessonId != lessonId
    ensures r.Some? ==> r.value.quiz.lessonId == lessonId && r.value in quizzes
    ensures r.Some? ==> exists i :: 0 <= i < |quizzes| && quizzes[i] == r.value && forall j :: 0 <= j < i ==> quizzes[j].quiz.lessonId != lessonId
  {
    Lists.FindFirst(quizzes, (q: Quizzes.QuizWithQuestions) => q.quiz.lessonId == lessonId)
  }

  /** The panel's form and dialog state. */
  class QuizPanel {
    var quizForm: QuizForm
    var questionForm: QuestionForm
    var isAddQuizOpen: bool
    var isAddQuestionOpen: bool

    /** The correct index is only ever set by one of the four option buttons. */
    ghost predicate Valid()
      reads this
    {
      0 <= questionForm.correctOption < 4
    }

    constructor ()
      ensures Valid()
      ensures quizForm == DefaultQuizForm && questionForm == DefaultQuestionForm
      ensures !isAddQuizOpen && !isAddQuestionOpen
    {
      quizForm := DefaultQuizForm;
      questionForm := DefaultQuestionForm;
      isAddQuizOpen := false;
      isAddQuestionOpen := false;
    }

    /** Clicking option button `num` sets `correct_option: num - 1`. */
    method ChooseCorrectOption(num: int)
      requires Valid() && 1 <= num <= 4
      modifies this`questionForm
      ensures Valid()
      ensures questionForm == old(questionForm).(correctOption := num - 1)
    {
      questionForm := questionForm.(correctOption := num - 1);
    }

    /** `handleCreateQuiz`. `createOk` is the outcome of the insert. Returns the payload sent,
        if validation let it through, and whether the quiz was created; only then is the dialog
        closed and the form reset, otherwise everything is kept for another attempt. */
    method CreateQuiz(lessonId: string, createOk: bool) returns (sent: Option<NewQuiz>, created: bool)
      requires Valid()
      modifies this`quizForm, this`isAddQuizOpen
      ensures Valid()
      ensures sent.Some? <==> QuizRequest(lessonId, old(quizForm)).Ok?
      ensures sent.Some? ==> sent.value == QuizRequest(lessonId, old(quizForm)).value
      ensures created <==> sent.Some? && createOk
      ensures created ==> quizForm == DefaultQuizForm && !isAddQuizOpen
      ensures !created ==> quizForm == old(quizForm) && isAddQuizOpen == old(isAddQuizOpen)
    {
      var request := QuizRequest(lessonId, quizForm);
      if request.Err? {
        return None, false;
      }
      sent := Some(request.value);
      if !createOk {
        return sent, false;
      }
      created := true;
      isAddQuizOpen := false;
      quizForm := DefaultQuizForm;
    }

    /** `handleCreateQuestion` for the lesson's quiz `quizId`, with the same shape. */
    method CreateQuestion(quizId: string, createOk: bool) returns (sent: Option<NewQuestion>, created: bool)
      requires Valid()
      modifies this`questionForm, this`isAddQuestionOpen
      ensures Valid()
      ensures sent.Some? <==> QuestionRequest(quizId, old(questionForm)).Ok?
      ensures sent.Some? ==> sent.value == QuestionRequest(quizId, old(questionForm)).value
      ensures created <==> sent.Some? && createOk
      ensures created ==> questionForm == DefaultQuestionForm && !isAddQuestionOpen
      ensures !created ==> questionForm == old(questionForm) && isAddQuestionOpen == old(isAddQuestionOpen)
    {
      var request := QuestionRequest(quizId, questionForm);
      if request.Err? {
        return None, false;
      }
      sent := Some(request.value);
      if !createOk {
        return sent, false;
      }
      created := true;
      isAddQuestionOpen := false;
      questionForm := DefaultQuestionForm;
    }
  }
}
