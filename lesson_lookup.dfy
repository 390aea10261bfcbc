/** src/hooks/useLessonById.ts: one lesson with its course and quiz information, and the
    questions of its quiz as the quiz-taking view reads them. */
module LessonLookup {
  import opened Wrappers
  import opened Backend
  import opened Types
  import opened Rows
  import Quizzes

  /** The course embedded in a module read by `select('*, courses(*)')`. */
  datatype CourseRef = CourseRef(id: string, title: string)

  datatype ModuleWithCourse = ModuleWithCourse(row: ModuleRow, course: Option<CourseRef>)

  /** `select('id, title, passing_score, points_reward')` on `quizzes`. */
  datatype QuizInfoRow = QuizInfoRow(id: string, title: string, passingScore: int, pointsReward: int)

  datatype QuizInfo = QuizInfo(id: string, title: string, passingScore: int, pointsReward: int)

  /** `LessonWithCourseInfo`: the lesson view-model (its `quiz` field included) and the extra
      fields of the lesson page. */
  datatype LessonWithCourseInfo = LessonWithCourseInfo(
    lesson: Lesson, courseId: string, courseTitle: string, hasQuiz: bool, quizInfo: Option<QuizInfo>)

  /** The query function of `useLessonById`. The quiz and progress reads ignore their errors,
      so only their data is an input: `quiz` is the quiz row if any, `progress` the
      `completed` flag of the user's progress row if any. `progress` is only read with a
      signed-in user. */
  function LessonById(
    lessonId: Option<string>, signedIn: bool, lessonQ: Reply<LessonRow>, moduleQ: Reply<ModuleWithCourse>,
    quiz: Option<QuizInfoRow>, progress: Option<bool>): (r: Result<Option<LessonWithCourseInfo>>)
    ensures !Present(lessonId) ==> r == Ok(None)
    ensures Present(lessonId) && lessonQ.error.Some? ==> r == Err(lessonQ.error.value)
    ensures Present(lessonId) && lessonQ.error.None? && lessonQ.data.None? ==> r == Ok(None)
    ensures Present(lessonId) && lessonQ.error.None? && lessonQ.data.Some? && moduleQ.error.Some? ==> r == Err(moduleQ.error.value)
    ensures Present(lessonId) && lessonQ.error.None? && lessonQ.data.Some? && moduleQ.error.None? && moduleQ.data.None? ==> r == Ok(None)
    ensures r.Ok? && r.value.Some? <==>
      Present(lessonId) && lessonQ.error.None? && lessonQ.data.Some? && moduleQ.error.None? && moduleQ.data.Some?
    ensures r.Ok? && r.value.Some? ==>
      var v := r.value.value;
      var row := lessonQ.data.value;
      v.lesson.id == row.id && v.lesson.moduleId == row.moduleId && v.lesson.title == row.title &&
      v.lesson.description == TextOr(row.description, "") && v.lesson.videoUrl == TextOr(row.videoUrl, "") &&
      v.lesson.duration == TextOr(row.duration, "0:00") && v.lesson.order == row.orderIndex &&
      (v.lesson.completed <==> signedIn && progress == Some(true)) &&
      (moduleQ.data.value.course.None? ==> v.courseId == "" && v.courseTitle == "") &&
      (moduleQ.data.value.course.Some? ==>
        v.courseId == moduleQ.data.value.course.value.id && v.courseTitle == moduleQ.data.value.course.value.title) &&
      (v.hasQuiz <==> quiz.Some?) && (v.quizInfo.Some? <==> quiz.Some?) && (v.lesson.quiz.Some? <==> quiz.Some?)
  {
    if !Present(lessonId) then Ok(None)
    else if lessonQ.error.Some? then Err(lessonQ.error.value)
    else if lessonQ.data.None? then Ok(None)
    else if moduleQ.error.Some? then Err(moduleQ.error.value)
    else if moduleQ.data.None? then Ok(None)
    else
      var row := lessonQ.data.value;
      var course := moduleQ.data.value.course;
      var isCompleted := signedIn && progress.Some? && progress.value;
      var lessonQuiz :=
        if quiz.Some? then Some(Quiz(quiz.value.id, lessonId.value, quiz.value.title, [], quiz.value.passingScore, quiz.value.pointsReward))
        else None;
      var lesson := Lesson(
        row.id, row.moduleId, row.title, TextOr(row.description, ""), TextOr(row.videoUrl, ""),
        TextOr(row.duration, "0:00"), row.orderIndex, isCompleted, lessonQuiz);
      Ok(Some(LessonWithCourseInfo(
        lesson,
        if course.Some? then course.value.id else "",
        if course.Some? then course.value.title else "",
        quiz.Some?,
        if quiz.Some? then Some(QuizInfo(quiz.value.id, quiz.value.title, quiz.value.passingScore, quiz.value.pointsReward)) else None)))
  }

  /** The quiz summary and the lesson's quiz describe the same quiz row: same id, title, pass
      mark and reward, attached to the requested lesson, with its questions left to a later read. */
  lemma QuizViewsAgree(
    lessonId: Option<string>, signedIn: bool, lessonQ: Reply<LessonRow>, moduleQ: Reply<ModuleWithCourse>,
    quiz: Option<QuizInfoRow>, progress: Option<bool>)
    requires LessonById(lessonId, signedIn, lessonQ, moduleQ, quiz, progress).Ok?
    requires LessonById(lessonId, signedIn, lessonQ, moduleQ, quiz, progress).value.Some?
    requires quiz.Some?
    ensures var v := LessonById(lessonId, signedIn, lessonQ, moduleQ, quiz, progress).value.value;
      var q := v.lesson.quiz.value;
      var info := v.quizInfo.value;
      q.id == info.id == quiz.value.id && q.title == info.title == quiz.value.title &&
      q.passingScore == info.passingScore == quiz.value.passingScore &&
      q.pointsReward == info.pointsReward == quiz.value.pointsReward &&
      q.lessonId == lessonId.value && q.questions == []
  {
  }

  /** A question of the quiz-taking view. */
  datatype TakingQuestion = TakingQuestion(id: string, text: string, options: seq<string>, explanation: Option<string>)

  /** `{ id: q.id || '', text: q.question_text || '', options, explanation: q.explanation || undefined }`. */
  function ToTakingQuestion(q: Quizzes.PublicQuestionRow): (r: TakingQuestion)
    ensures r.id == TextOr(q.id, "") && r.text == TextOr(q.questionText, "")
    ensures r.options == Quizzes.OptionsOf(q.options)
    ensures r.explanation.Some? <==> Present(q.explanation)
    ensures r.explanation.Some? ==> r.explanation == q.explanation
  {
    TakingQuestion(TextOr(q.id, ""), TextOr(q.questionText, ""), Quizzes.OptionsOf(q.options), NonEmpty(q.explanation))
  }

  /** The query function of `useQuizQuestionsForLesson`: no lesson id or no quiz gives no
      questions; an error from either read aborts with it; otherwise the view's rows (already
      restricted to the quiz and ordered by `order_index`) become questions in that order. */
  function QuizQuestionsForLesson(
    lessonId: Option<string>, quizQ: Reply<string>, questionsQ: Reply<seq<Quizzes.PublicQuestionRow>>): (r: Result<seq<TakingQuestion>>)
    ensures !Present(lessonId) ==> r == Ok([])
    ensures Present(lessonId) && quizQ.error.Some? ==> r == Err(quizQ.error.value)
    ensures Present(lessonId) && quizQ.error.None? && quizQ.data.None? ==> r == Ok([])
    ensures Present(lessonId) && quizQ.error.None? && quizQ.data.Some? && questionsQ.error.Some? ==> r == Err(questionsQ.error.value)
    ensures r.Err? <==> Present(lessonId) && (quizQ.error.Some? || (quizQ.data.Some? && questionsQ.error.Some?))
    ensures Present(lessonId) && quizQ.error.None? && quizQ.data.Some? && questionsQ.error.None? ==>
      r.Ok? && |r.value| == |RowsOf(questionsQ)| &&
      forall i :: 0 <= i < |r.value| ==> r.value[i] == ToTakingQuestion(RowsOf(questionsQ)[i])
  {
    if !Present(lessonId) then Ok([])
    else if quizQ.error.Some? then Err(quizQ.error.value)
    else if quizQ.data.None? then Ok([])
    else if questionsQ.error.Some? then Err(questionsQ.error.value)
    else
      var rows := RowsOf(questionsQ);
      Ok(seq(|rows|, i requires 0 <= i < |rows| => ToTakingQuestion(rows[i])))
  }
}
