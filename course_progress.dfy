/** src/hooks/useCoursesWithProgress.ts: the catalogue joined with the signed-in user's
    progress, with per-lesson completion and quiz markers, a course progress percentage and a
    rendered total duration. */
module CourseProgress {
  import opened Wrappers
  import opened Backend
  import opened Rows
  import opened Types
  import CourseCatalog
  import Lists
  import Numeric
  import Text

  /** A row of `lesson_progress` as selected here (`lesson_id, completed, quiz_score`). */
  datatype ProgressRow = ProgressRow(lessonId: string, completed: bool, quizScore: Option<int>)

  /** A row of `quizzes` as selected here (`lesson_id` only). */
  datatype QuizRef = QuizRef(lessonId: string)

  /** A view-model course together with its database id. */
  datatype CourseWithProgress = CourseWithProgress(course: Course, dbId: string)

  const DefaultThumbnail := "https://images.unsplash.com/photo-1552664730-d307ca884978?w=800"

  /** `new Set(userProgress.filter((p) => p.completed).map((p) => p.lesson_id))`. */
  function CompletedIds(progress: seq<ProgressRow>): (ids: set<string>)
    ensures forall id :: id in ids <==> exists p :: p in progress && p.lessonId == id && p.completed
  {
    set p | p in progress && p.completed :: p.lessonId
  }

  /** `new Set(quizzes.map((q) => q.lesson_id))`. */
  function QuizLessonIds(quizzes: seq<QuizRef>): (ids: set<string>)
    ensures forall id :: id in ids <==> exists q :: q in quizzes && q.lessonId == id
  {
    set q | q in quizzes :: q.lessonId
  }

  /** The placeholder quiz a lesson with a quiz carries: no questions, fixed thresholds. */
  function QuizMarker(lessonId: string): Quiz {
    Quiz("quiz-" + lessonId, lessonId, "Quiz", [], 70, 100)
  }

  /** One lesson of the view model: the row's fields, empty text for a missing description or
      video, "0:00" for a missing duration, and the completion and quiz flags looked up by id. */
  function BuildLesson(l: LessonRow, moduleId: string, completedIds: set<string>, quizIds: set<string>): (r: Lesson)
    ensures r.id == l.id && r.moduleId == moduleId && r.title == l.title && r.order == l.orderIndex
    ensures r.description == TextOr(l.description, "") && r.videoUrl == TextOr(l.videoUrl, "")
    ensures r.duration == TextOr(l.duration, "0:00") && r.duration != ""
    ensures r.completed <==> l.id in completedIds
    ensures r.quiz.Some? <==> l.id in quizIds
    ensures r.quiz.Some? ==> (r.quiz.value.id == "quiz-" + l.id && r.quiz.value.lessonId == l.id &&
      r.quiz.value.title == "Quiz" && r.quiz.value.questions == [] &&
      r.quiz.value.passingScore == 70 && r.quiz.value.pointsReward == 100)
  {
    Lesson(l.id, moduleId, l.title, TextOr(l.description, ""), TextOr(l.videoUrl, ""),
      TextOr(l.duration, "0:00"), l.orderIndex, l.id in completedIds,
      if l.id in quizIds then Some(QuizMarker(l.id)) else None)
  }

  function BuildModule(m: ModuleRow, courseId: string, lessons: seq<LessonRow>, completedIds: set<string>, quizIds: set<string>): (r: Module)
    ensures r.id == m.id && r.courseId == courseId && r.title == m.title && r.order == m.orderIndex
    ensures |r.lessons| == |CourseCatalog.LessonRowsOf(m.id, lessons)|
    ensures forall k :: 0 <= k < |r.lessons| ==>
      r.lessons[k] == BuildLesson(CourseCatalog.LessonRowsOf(m.id, lessons)[k], m.id, completedIds, quizIds)
  {
    var ls := CourseCatalog.LessonRowsOf(m.id, lessons);
    Module(m.id, courseId, m.title, m.orderIndex,
      seq(|ls|, k requires 0 <= k < |ls| => BuildLesson(ls[k], m.id, completedIds, quizIds)))
  }

  /** `totalLessons > 0 ? Math.round((completedLessons / totalLessons) * 100) : 0`. */
  function ProgressOf(mods: seq<Module>): (p: int)
    ensures 0 <= p <= 100
    ensures TotalLessons(mods) == 0 ==> p == 0
    ensures (forall j, k :: LessonAt(mods, j, k) ==> !mods[j].lessons[k].completed) ==> p == 0
    ensures TotalLessons(mods) > 0 && (forall j, k :: LessonAt(mods, j, k) ==> mods[j].lessons[k].completed) ==> p == 100
    ensures TotalLessons(mods) > 0 ==> 2 * TotalLessons(mods) * p <= 200 * CompletedLessons(mods) + TotalLessons(mods) < 2 * TotalLessons(mods) * (p + 1)
  {
    CompletedBounds(mods);
    if TotalLessons(mods) > 0 then Numeric.Percent(CompletedLessons(mods), TotalLessons(mods)) else 0
  }

  /** One lesson's duration in seconds, from `duration.split(':')`: `parseInt(parts[0]) || 0`
      minutes and `parseInt(parts[1]) || 0` seconds (an absent part is `NaN`, hence 0). */
  function DurationSeconds(duration: string): (r: int)
    ensures ':' !in duration ==> r == 60 * Numeric.IntOr(duration, 0)
  {
    var parts := Text.Split(duration, ':');
    60 * Numeric.IntOr(parts[0], 0) + (if |parts| > 1 then Numeric.IntOr(parts[1], 0) else 0)
  }

  function LessonsSeconds(lessons: seq<Lesson>): int {
    if lessons == [] then 0 else DurationSeconds(lessons[0].duration) + LessonsSeconds(lessons[1..])
  }

  /** Sixty times the application's floating-point `totalMinutes`, which is kept exact here. */
  function TotalSeconds(mods: seq<Module>): int {
    if mods == [] then 0 else LessonsSeconds(mods[0].lessons) + TotalSeconds(mods[1..])
  }

  /** `Math.floor(totalMinutes / 60)`. */
  function Hours(seconds: int): int {
    seconds / 3600
  }

  /** `Math.round(totalMinutes % 60)`, with `%` truncating as in JavaScript. */
  function Minutes(seconds: int): int {
    Numeric.RoundRatio(Numeric.TruncRem(seconds, 3600), 60)
  }

  /** `hours > 0 ? `${hours}h ${mins}min` : `${mins}min``. */
  function FormatDuration(seconds: int): (r: string)
    ensures |r| > 3 && r[|r| - 3..] == "min"
    ensures 'h' in r <==> Hours(seconds) > 0
    ensures Hours(seconds) <= 0 ==> r == Numeric.IntString(Minutes(seconds)) + "min"
  {
    var h, m := Hours(seconds), Minutes(seconds);
    if h > 0 then Numeric.IntString(h) + "h " + Numeric.IntString(m) + "min"
    else Numeric.IntString(m) + "min"
  }

  function BuildCourse(c: CourseRow, modules: seq<ModuleRow>, lessons: seq<LessonRow>, completedIds: set<string>, quizIds: set<string>): (r: CourseWithProgress)
    ensures r.dbId == c.id && r.course.id == c.id && r.course.title == c.title
    ensures r.course.description == c.description && r.course.thumbnail == TextOr(c.thumbnail, DefaultThumbnail)
    ensures r.course.difficulty == c.difficulty && r.course.category == c.category
    ensures r.course.totalModules == |r.course.modules| == |CourseCatalog.ModuleRowsOf(c.id, modules)|
    ensures forall j :: 0 <= j < |r.course.modules| ==>
      r.course.modules[j] == BuildModule(CourseCatalog.ModuleRowsOf(c.id, modules)[j], c.id, lessons, completedIds, quizIds)
    ensures r.course.progress == Some(ProgressOf(r.course.modules))
    ensures r.course.totalDuration == FormatDuration(TotalSeconds(r.course.modules))
  {
    var ms := CourseCatalog.ModuleRowsOf(c.id, modules);
    var mods := seq(|ms|, j requires 0 <= j < |ms| => BuildModule(ms[j], c.id, lessons, completedIds, quizIds));
    CourseWithProgress(
      Course(c.id, c.title, c.description, TextOr(c.thumbnail, DefaultThumbnail), |mods|,
        FormatDuration(TotalSeconds(mods)), c.difficulty, c.category, Some(ProgressOf(mods)), mods),
      c.id)
  }

  /** The progress rows used: read only with a signed-in user, and replaced by none when the
      read fails or returns nothing. */
  function UserProgress(signedIn: bool, progressQ: Reply<seq<ProgressRow>>): (rows: seq<ProgressRow>)
    ensures !signedIn || progressQ.error.Some? || progressQ.data.None? ==> rows == []
    ensures signedIn && progressQ.error.None? && progressQ.data.Some? ==> rows == progressQ.data.value
  {
    if signedIn && progressQ.error.None? && progressQ.data.Some? then progressQ.data.value else []
  }

  /** The query function of `useCoursesWithProgress`. An error from the course, module,
      lesson or quiz read aborts with that error; an error from the progress read does not. */
  function CoursesWithProgress(
    signedIn: bool, coursesQ: Reply<seq<CourseRow>>, modulesQ: Reply<seq<ModuleRow>>,
    lessonsQ: Reply<seq<LessonRow>>, quizzesQ: Reply<seq<QuizRef>>, progressQ: Reply<seq<ProgressRow>>
  ): (r: Result<seq<CourseWithProgress>>)
    ensures coursesQ.error.Some? ==> r == Err(coursesQ.error.value)
    ensures coursesQ.error.None? && modulesQ.error.Some? ==> r == Err(modulesQ.error.value)
    ensures coursesQ.error.None? && modulesQ.error.None? && lessonsQ.error.Some? ==> r == Err(lessonsQ.error.value)
    ensures coursesQ.error.None? && modulesQ.error.None? && lessonsQ.error.None? && quizzesQ.error.Some? ==> r == Err(quizzesQ.error.value)
    ensures r.Ok? <==> coursesQ.error.None? && modulesQ.error.None? && lessonsQ.error.None? && quizzesQ.error.None?
    ensures r.Ok? ==> |r.value| == |RowsOf(coursesQ)|
    ensures r.Ok? ==> forall i :: 0 <= i < |r.value| ==>
      r.value[i] == BuildCourse(RowsOf(coursesQ)[i], RowsOf(modulesQ), RowsOf(lessonsQ),
        CompletedIds(UserProgress(signedIn, progressQ)), QuizLessonIds(RowsOf(quizzesQ)))
  {
    if coursesQ.error.Some? then Err(coursesQ.error.value)
    else if modulesQ.error.Some? then Err(modulesQ.error.value)
    else if lessonsQ.error.Some? then Err(lessonsQ.error.value)
    else if quizzesQ.error.Some? then Err(quizzesQ.error.value)
    else
      var cs, ms, ls := RowsOf(coursesQ), RowsOf(modulesQ), RowsOf(lessonsQ);
      var completedIds := CompletedIds(UserProgress(signedIn, progressQ));
      var quizIds := QuizLessonIds(RowsOf(quizzesQ));
      Ok(seq(|cs|, i requires 0 <= i < |cs| => BuildCourse(cs[i], ms, ls, completedIds, quizIds)))
  }

  /** `useCourseWithProgress`: the first loaded course with the requested id, if any. */
  function FindCourse(courses: Option<seq<CourseWithProgress>>, courseId: Option<string>): (r: Option<CourseWithProgress>)
    ensures courses.None? || courseId.None? ==> r.None?
    ensures r.Some? ==> r.value in courses.value && r.value.course.id == courseId.value
    ensures courses.Some? && courseId.Some? ==>
      (r.None? <==> forall i :: 0 <= i < |courses.value| ==> courses.value[i].course.id != courseId.value)
    ensures r.Some? ==> exists i :: (0 <= i < |courses.value| && courses.value[i] == r.value &&
      forall j :: 0 <= j < i ==> courses.value[j].course.id != courseId.value)
  {
    if courses.None? || courseId.None? then None
    else Lists.FindFirst(courses.value, (c: CourseWithProgress) => c.course.id == courseId.value)
  }

  /** A built lesson is completed exactly when a progress row for it says `completed`; rows
      with `completed = false` are ignored. It carries a quiz marker exactly when some quiz row
      names it, and the marker has no questions, passing score 70 and reward 100. */
  lemma LessonFlags(l: LessonRow, moduleId: string, progress: seq<ProgressRow>, quizzes: seq<QuizRef>)
    ensures var lesson := BuildLesson(l, moduleId, CompletedIds(progress), QuizLessonIds(quizzes));
      (lesson.completed <==> exists p :: p in progress && p.lessonId == l.id && p.completed) &&
      (lesson.quiz.Some? <==> exists q :: q in quizzes && q.lessonId == l.id) &&
      (lesson.quiz.Some? ==> (lesson.quiz.value.lessonId == l.id && lesson.quiz.value.questions == [] &&
        lesson.quiz.value.passingScore == 70 && lesson.quiz.value.pointsReward == 100))
  {
  }

  /** Without a signed-in user, or when the progress read fails, no lesson is completed and
      every course's progress is 0. */
  lemma {:induction false} NoProgressWithoutUser(
    signedIn: bool, coursesQ: Reply<seq<CourseRow>>, modulesQ: Reply<seq<ModuleRow>>,
    lessonsQ: Reply<seq<LessonRow>>, quizzesQ: Reply<seq<QuizRef>>, progressQ: Reply<seq<ProgressRow>>)
    requires !signedIn || progressQ.error.Some?
    requires CoursesWithProgress(signedIn, coursesQ, modulesQ, lessonsQ, quizzesQ, progressQ).Ok?
    ensures var cs := CoursesWithProgress(signedIn, coursesQ, modulesQ, lessonsQ, quizzesQ, progressQ).value;
      forall i :: 0 <= i < |cs| ==> (cs[i].course.progress == Some(0) &&
        forall j, k :: LessonAt(cs[i].course.modules, j, k) ==> !cs[i].course.modules[j].lessons[k].completed)
  {
    var cs := CoursesWithProgress(signedIn, coursesQ, modulesQ, lessonsQ, quizzesQ, progressQ).value;
    assert CompletedIds(UserProgress(signedIn, progressQ)) == {};
    forall i | 0 <= i < |cs|
      ensures cs[i].course.progress == Some(0)
      ensures forall j, k :: LessonAt(cs[i].course.modules, j, k) ==> !cs[i].course.modules[j].lessons[k].completed
    {
      var mods := cs[i].course.modules;
      forall j, k | LessonAt(mods, j, k) ensures !mods[j].lessons[k].completed {
        assert mods[j].lessons[k].completed == (mods[j].lessons[k].id in CompletedIds(UserProgress(signedIn, progressQ)));
      }
    }
  }

  /** A module's lessons are exactly the lesson rows naming it, in input order. */
  lemma ModuleHoldsItsLessons(m: ModuleRow, courseId: string, lessons: seq<LessonRow>, completedIds: set<string>, quizIds: set<string>)
    ensures var r := BuildModule(m, courseId, lessons, completedIds, quizIds);
      (forall k :: 0 <= k < |r.lessons| ==> r.lessons[k].moduleId == m.id) &&
      (forall l :: l in lessons && l.moduleId == m.id <==> exists k :: 0 <= k < |r.lessons| && CourseCatalog.LessonRowsOf(m.id, lessons)[k] == l) &&
      Lists.IsSublist(CourseCatalog.LessonRowsOf(m.id, lessons), lessons)
  {
    Lists.FilterIsSublist(lessons, (l: LessonRow) => l.moduleId == m.id);
  }

  /** A duration with one colon is read as minutes before it and seconds after it. */
  lemma DurationOfParts(a: string, b: string)
    requires ':' !in a && ':' !in b
    ensures DurationSeconds(a + ":" + b) == 60 * Numeric.IntOr(a, 0) + Numeric.IntOr(b, 0)
  {
    Text.SplitTwo(a, b, ':');
  }

  /** "00" reads as 0 (its digits are all zeros). */
  lemma DoubleZeroIsZero()
    ensures Numeric.IntOr("00", 0) == 0
  {
    assert Numeric.SpaceRun("00") == 0 && Numeric.DigitRun("00") == 2 && "00"[..2] == "00";
    assert Numeric.DigitsValue("00") == 0 by {
      assert "00"[..1] == "0" && "0"[..0] == "";
    }
    assert Numeric.ParseInt("00") == Some(0);
  }

  /** "0" reads as 0. */
  lemma SingleZeroIsZero()
    ensures Numeric.IntOr("0", 0) == 0
  {
    assert Numeric.DecimalString(0) == "0";
    Numeric.ParseIntString(0);
  }

  /** "0:00" is zero seconds. */
  lemma ZeroDurationIsZero()
    ensures DurationSeconds("0:00") == 0
  {
    assert "0:00" == "0" + ":" + "00";
    DurationOfParts("0", "00");
    DoubleZeroIsZero();
    SingleZeroIsZero();
  }

  /** An absent or empty duration counts as "0:00", which contributes nothing. */
  lemma MissingDurationIsZero(l: LessonRow, moduleId: string, completedIds: set<string>, quizIds: set<string>)
    requires l.duration.None? || l.duration == Some("")
    ensures DurationSeconds(BuildLesson(l, moduleId, completedIds, quizIds).duration) == 0
  {
    ZeroDurationIsZero();
  }

  /** A duration written "m:s", both numbers in shortest decimal, counts as m minutes and s
      seconds. */
  lemma DurationOfMinutesSeconds(m: nat, s: nat)
    ensures DurationSeconds(Numeric.DecimalString(m) + ":" + Numeric.DecimalString(s)) == 60 * m + s
  {
    var a, b := Numeric.DecimalString(m), Numeric.DecimalString(s);
    assert ':' !in a && ':' !in b by {
      assert forall i :: 0 <= i < |a| ==> Numeric.IsDigit(a[i]);
      assert forall i :: 0 <= i < |b| ==> Numeric.IsDigit(b[i]);
    }
    DurationOfParts(a, b);
    Numeric.ParseIntString(m);
    Numeric.ParseIntString(s);
  }

  /** For a non-negative total the rendered parts are the total rounded to the nearest minute
      (halves up): `60 * hours + mins` minutes are within half a minute of the total, and the
      minutes part lies in 0..60 (it reaches 60 from 59.5 minutes on). */
  lemma RenderedDurationIsNearestMinute(seconds: int)
    requires seconds >= 0
    ensures Hours(seconds) >= 0 && 0 <= Minutes(seconds) <= 60
    ensures -30 <= seconds - 60 * (60 * Hours(seconds) + Minutes(seconds)) < 30
  {
    var rem := Numeric.TruncRem(seconds, 3600);
    assert seconds == 3600 * Hours(seconds) + rem;
  }

  /** Below one hour only the minutes are rendered. */
  lemma RenderedMinutesOnly(seconds: int)
    requires 0 <= seconds < 3600
    ensures FormatDuration(seconds) == Numeric.DecimalString(Minutes(seconds)) + "min"
  {
  }

  lemma TenThirtyText()
    ensures "10:30" == Numeric.DecimalString(10) + ":" + Numeric.DecimalString(30)
  {
    assert Numeric.DecimalString(10) == "10" && Numeric.DecimalString(30) == "30";
  }

  lemma TenThirty()
    ensures DurationSeconds("10:30") == 630
  {
    TenThirtyText();
    DurationOfMinutesSeconds(10, 30);
  }

  lemma FiveFortyFiveText()
    ensures "5:45" == Numeric.DecimalString(5) + ":" + Numeric.DecimalString(45)
  {
    assert Numeric.DecimalString(5) == "5" && Numeric.DecimalString(45) == "45";
  }

  lemma FiveFortyFive()
    ensures DurationSeconds("5:45") == 345
  {
    FiveFortyFiveText();
    DurationOfMinutesSeconds(5, 45);
  }

  lemma FiftyNineThirtyText()
    ensures "59:30" == Numeric.DecimalString(59) + ":" + Numeric.DecimalString(30)
  {
    assert Numeric.DecimalString(59) == "59" && Numeric.DecimalString(30) == "30";
  }

  lemma FiftyNineThirty()
    ensures DurationSeconds("59:30") == 3570
  {
    FiftyNineThirtyText();
    DurationOfMinutesSeconds(59, 30);
  }

  /** Any "m:ss" made of decimal digits, leading zeros included ("10:05"), counts as m minutes
      and ss seconds. */
  lemma DurationOfDigitStrings(m: string, ss: string)
    requires m != [] && forall i :: 0 <= i < |m| ==> Numeric.IsDigit(m[i])
    requires ss != [] && forall i :: 0 <= i < |ss| ==> Numeric.IsDigit(ss[i])
    ensures DurationSeconds(m + ":" + ss) == 60 * Numeric.DigitsValue(m) + Numeric.DigitsValue(ss)
  {
    assert ':' !in m by {
      forall i | 0 <= i < |m| ensures m[i] != ':' { assert Numeric.IsDigit(m[i]); }
    }
    assert ':' !in ss by {
      forall i | 0 <= i < |ss| ensures ss[i] != ':' { assert Numeric.IsDigit(ss[i]); }
    }
    DurationOfParts(m, ss);
    assert Numeric.ParseInt(m) == Some(Numeric.DigitsValue(m));
    assert Numeric.ParseInt(ss) == Some(Numeric.DigitsValue(ss));
  }

  /** "10:30", "5:45" and "0:00" add up to 16.25 minutes, rendered "16min". */
  lemma DurationExampleSixteen()
    ensures FormatDuration(DurationSeconds("10:30") + DurationSeconds("5:45") + DurationSeconds("0:00")) == "16min"
  {
    TenThirty();
    FiveFortyFive();
    ZeroDurationIsZero();
    var total := DurationSeconds("10:30") + DurationSeconds("5:45") + DurationSeconds("0:00");
    assert total == 975;
    SixteenMinutes();
  }

  lemma SixteenMinutes()
    ensures FormatDuration(975) == "16min"
  {
    assert Numeric.TruncRem(975, 3600) == 975;
    assert Numeric.RoundRatio(975, 60) == 2010 / 120 == 16;
    assert Numeric.DecimalString(16) == Numeric.DecimalString(1) + "6" == "16";
    RenderedMinutesOnly(975);
  }

  lemma SixtyMinutes()
    ensures FormatDuration(3570) == "60min"
  {
    assert Numeric.TruncRem(3570, 3600) == 3570;
    assert Numeric.RoundRatio(3570, 60) == 7200 / 120 == 60;
    assert Numeric.DecimalString(60) == Numeric.DecimalString(6) + "0" == "60";
    RenderedMinutesOnly(3570);
  }

  /** 59.5 minutes render as "60min": the minutes part can reach 60. */
  lemma DurationExampleSixty()
    ensures FormatDuration(DurationSeconds("59:30")) == "60min"
  {
    FiftyNineThirty();
    SixtyMinutes();
  }
}
