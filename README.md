# Training academy — a verified model of its course, progress and quiz logic

The academy is a React web application on a Supabase backend. Learners browse a catalogue of
courses, made of modules, made of video lessons. They mark lessons as completed and take the
quiz that ends a lesson. Admins create quizzes, questions and user accounts.

This project models the logic that sits between the rows the backend returns and what the
pages show. Each backend read or write is replaced by its outcome, given as an input:
- a read becomes a `Backend.Reply` with a `data` part and an `error` part;
- a single-row read becomes a `Reply` or a `Result`;
- a write becomes an ok flag.

The modules, one per file of the application plus shared helpers:

- `Wrappers`, `Backend`, `Lists`, `Numeric`, `Text`, `Types`, `Rows` are the shared helpers.
  - They hold `Option`/`Result`, the `{ data, error }` reply and `filter`/`find`/`slice` with their meaning.
  - `Numeric` models `Math.round` of a quotient exactly, `parseInt` without a radix (decimal, or
    hexadecimal after `0x`) and `parseInt(..) || d`, and
    decimal rendering with the round trip `ParseInt(IntString(i)) == Some(i)`.
  - `Text` has ASCII `toLowerCase`, `includes` and `split`/`join`.
  - `Types` holds the view-model records (courses, modules, lessons, quizzes) and `Rows` the database rows.
- `CourseCatalog` (`useCourses`): the course → module → lesson join.
- `CourseProgress` (`useCoursesWithProgress`): the same join with completion flags, quiz markers,
  the progress percentage and the rendered total duration.
  - Durations are counted in whole seconds, which keeps `minutes + seconds / 60` exact.
- `LessonProgress` (`useLessonProgress`): the progress cache, as a class whose methods take the
  backend outcome and a timestamp.
- `LessonPage` (`Lesson.tsx`): the quiz-taking state machine, as a class whose methods are the
  button handlers. Each method's precondition is the condition under which its button is shown
  and enabled.
- `LessonLookup` (`useLessonById`) and `Quizzes` (`useQuizzes`): single-lesson and quiz reads,
  question normalisation and answer checking.
- `QuizManager` (`QuizManager.tsx`): the quiz and question creation checks, and the admin form state.
- `CourseDetailPage`, `CoursesPage`, `MaterialsPage`, `DashboardPage`, with `Browse` for the
  shared search box: module toggling, lesson locking, catalogue filters and dashboard figures.
- `Users` (`useUsers`), `CreateUserFunction` (the `create-user` server function) and `Auth`
  (`AuthContext`): the user list, account creation and the demo sign-in.

Division by zero in the application gives `NaN`, and the model states those cases as `None`:
- a quiz with no questions;
- a module with no lessons;
- a dashboard with no courses.

## Model

| member | source | states |
|---|---|---|
| Numeric.RoundRatio | src/hooks/useCoursesWithProgress.ts:107 | `Math.round(p/q)` for q > 0 is the integer r with 2qr ≤ 2p+q < 2q(r+1): the nearest integer, halves up |
| Numeric.Percent | src/hooks/useCoursesWithProgress.ts:107 | `Math.round(c/t*100)` lies in 0..100 when 0 ≤ c ≤ t, is 0 for c = 0 and 100 for c = t, and is the nearest integer to 100c/t |
| Numeric.TruncRem | src/hooks/useCoursesWithProgress.ts:120 | JavaScript `%`: truncated remainder with the dividend's sign, equal to Euclidean `%` for a non-negative dividend |
| Numeric.UnsignedValue | src/hooks/useCoursesWithProgress.ts:113-114 | the number after the sign starts with a decimal digit, and a text of decimal digits only reads as its decimal value |
| Numeric.ParseInt | src/hooks/useCoursesWithProgress.ts:113-114 | `parseInt` yields a number only when the text holds a digit, and a non-empty text of decimal digits (leading zeros included) reads as its decimal value |
| Numeric.ParseHex | src/hooks/useCoursesWithProgress.ts:113-114 | `0x` followed by hexadecimal digits reads as their hexadecimal value, as `parseInt` without a radix does |
| Numeric.HexSixteen | src/hooks/useCoursesWithProgress.ts:113-114 | "0x10" reads as 16 |
| Numeric.IntOr | src/components/admin/QuizManager.tsx:69-70 | `parseInt(s) \|\| d` is d exactly when parsing gives NaN, 0 or d itself, and otherwise the parsed value |
| Numeric.DecimalString | src/hooks/useCoursesWithProgress.ts:121 | a natural number renders as at least one digit, only digits, with no leading zero |
| Numeric.ParseIntString | src/hooks/useCoursesWithProgress.ts:113-121 | parsing an integer's rendering gives back the integer |
| Text.Lower | src/pages/Courses.tsx:20-21 | lower-casing keeps the length and maps each ASCII capital to its small letter, leaving every other character alone |
| Text.LowerIdempotent | src/pages/Courses.tsx:20-21 | lower-casing twice equals lower-casing once |
| Text.ContainsAt | src/pages/Courses.tsx:20-21 | `includes` holds exactly when the needle occurs at some index |
| Text.Split | src/hooks/useCoursesWithProgress.ts:112 | `split` gives at least one part, no part holds the separator, and text without the separator is one part |
| Text.JoinSplit | src/hooks/useCoursesWithProgress.ts:112 | joining the parts of a split with the separator gives back the text |
| Text.SplitTwo | src/hooks/useCoursesWithProgress.ts:112-114 | `a:b` with no colon inside a or b splits into exactly [a, b] |
| Lists.FilterStrongerIsSublist | src/pages/Materials.tsx:16-24 | filtering by a stronger condition gives an order-preserving sublist of filtering by a weaker one |
| Types.CompletedIn | src/pages/CourseDetail.tsx:124-125 | a module's completed count is at most its lesson count, and equals it exactly when every lesson is completed |
| Types.CompletedBounds | src/pages/CourseDetail.tsx:51-58 | the completed-lesson total never exceeds the lesson total; it is 0 when none is completed and equal when all are |
| Types.CourseStatesPartition | src/pages/Courses.tsx:26-32 | for progress in 0..100 a course is exactly one of in progress, finished, not started |
| Rows.TextOr | src/hooks/useCoursesWithProgress.ts:77-79 | `value \|\| fallback` on nullable text: a non-empty value is kept, null and "" give the fallback |
| Rows.NonEmpty | src/hooks/useLessonById.ts:132 | `value \|\| undefined`: present exactly when the value is non-empty text, and then unchanged |
| CourseCatalog.ModuleRowsOf | src/hooks/useCourses.ts:82-83 | a course's modules are exactly the module rows with its course id, kept in fetched order (an order-preserving sublist) |
| CourseCatalog.LessonRowsOf | src/hooks/useCourses.ts:86 | a module's lessons are exactly the lesson rows with its module id, kept in fetched order (an order-preserving sublist) |
| CourseCatalog.AttachModules | src/hooks/useCourses.ts:79-88 | a course keeps its row and holds its module rows in fetched order, each with its own lesson rows |
| CourseCatalog.Join | src/hooks/useCourses.ts:79-88 | one output per course row, in fetched order, each with its modules attached |
| CourseCatalog.UseCourses | src/hooks/useCourses.ts:56-91 | the first failing read aborts with its error (courses, then modules, then lessons); otherwise the join of the rows, absent data as none |
| CourseCatalog.JoinPlacesRowsUnderTheirParents | src/hooks/useCourses.ts:82-87 | every placed module belongs to its course and every placed lesson to its module, so orphans appear nowhere |
| CourseCatalog.JoinKeepsEveryChild | src/hooks/useCourses.ts:82-87 | every module row of a fetched course is placed under it, with every lesson row of that module |
| CourseProgress.CompletedIds | src/hooks/useCoursesWithProgress.ts:62-64 | an id is completed exactly when some progress row for it has `completed = true` |
| CourseProgress.QuizLessonIds | src/hooks/useCoursesWithProgress.ts:61 | an id has a quiz exactly when some quiz row names it |
| CourseProgress.BuildLesson | src/hooks/useCoursesWithProgress.ts:73-90 | a lesson copies the row's id, title and order and its module's id; description and video URL are the row's text or ""; the duration is the row's non-empty duration or "0:00", so never empty; it is completed iff its id is among the completed ids, and has a quiz marker (id "quiz-" + lesson id, title "Quiz", no questions, pass mark 70, reward 100) iff its id is among the quiz lesson ids |
| CourseProgress.BuildModule | src/hooks/useCoursesWithProgress.ts:68-99 | a module copies its row's id, title and order, belongs to its course, and holds its lesson rows in order, each built |
| CourseProgress.ProgressOf | src/hooks/useCoursesWithProgress.ts:102-107 | course progress is in 0..100; 0 with no lessons or none completed, 100 with all completed, else the nearest integer to 100·completed/total |
| CourseProgress.BuildCourse | src/hooks/useCoursesWithProgress.ts:67-136 | a course copies the row's id, title, description, difficulty and category, takes the default thumbnail for a missing or empty one, has its module rows in order, `totalModules` equal to their count, the progress of its lessons and the rendered duration of their total |
| CourseProgress.UserProgress | src/hooks/useCoursesWithProgress.ts:49-59 | progress rows are used only with a signed-in user and a successful read, otherwise none |
| CourseProgress.CoursesWithProgress | src/hooks/useCoursesWithProgress.ts:16-139 | course, module, lesson or quiz read errors abort in that order, a progress read error does not; one built course per course row |
| CourseProgress.FindCourse | src/hooks/useCoursesWithProgress.ts:144-154 | `useCourseWithProgress` yields the first loaded course with the id, or nothing when none matches or nothing is loaded |
| CourseProgress.LessonFlags | src/hooks/useCoursesWithProgress.ts:61-89 | a lesson is completed iff a progress row for it says completed; it has a quiz marker iff a quiz row names it, and the marker has no questions, pass mark 70 and reward 100 |
| CourseProgress.NoProgressWithoutUser | src/hooks/useCoursesWithProgress.ts:49-64 | without a user or with a failed progress read, no lesson is completed and every course's progress is 0 |
| CourseProgress.ModuleHoldsItsLessons | src/hooks/useCoursesWithProgress.ts:71-90 | a module's lessons are exactly the lesson rows naming it, in input order |
| CourseProgress.DurationSeconds | src/hooks/useCoursesWithProgress.ts:112-115 | a duration without a colon counts `parseInt(d) \|\| 0` whole minutes (the absent second part is NaN, hence 0) |
| CourseProgress.FormatDuration | src/hooks/useCoursesWithProgress.ts:119-121 | the rendering always ends in "min"; it shows an hours part (an "h") exactly when the whole hours are positive, and otherwise is just the minutes followed by "min" |
| CourseProgress.DurationOfParts | src/hooks/useCoursesWithProgress.ts:112-115 | "a:b" counts `parseInt(a) \|\| 0` minutes and `parseInt(b) \|\| 0` seconds |
| CourseProgress.DurationOfMinutesSeconds | src/hooks/useCoursesWithProgress.ts:112-115 | "m:s" with both numbers in shortest decimal counts 60m + s seconds |
| CourseProgress.DurationOfDigitStrings | src/hooks/useCoursesWithProgress.ts:112-115 | any two non-empty digit strings around a colon ("10:05" included) count 60 times the first value plus the second |
| CourseProgress.ZeroDurationIsZero | src/hooks/useCoursesWithProgress.ts:112-115 | "0:00" counts zero seconds |
| CourseProgress.MissingDurationIsZero | src/hooks/useCoursesWithProgress.ts:79 | an absent or empty duration becomes "0:00" and adds nothing |
| CourseProgress.RenderedDurationIsNearestMinute | src/hooks/useCoursesWithProgress.ts:119-121 | for a non-negative total, 60·hours + mins is the total rounded to the nearest minute, and mins is in 0..60 |
| CourseProgress.RenderedMinutesOnly | src/hooks/useCoursesWithProgress.ts:121 | under one hour only "{m}min" is rendered |
| CourseProgress.DurationExampleSixteen | src/hooks/useCoursesWithProgress.ts:110-121 | "10:30", "5:45" and "0:00" render as "16min" |
| CourseProgress.DurationExampleSixty | src/hooks/useCoursesWithProgress.ts:119-121 | 59.5 minutes render as "60min": the minutes part can reach 60 |
| LessonProgress.QuizScoreOf | src/hooks/useLessonProgress.ts:150-152 | the score is the first entry's score for the lesson, absent when there is no entry |
| LessonProgress.Completed | src/hooks/useLessonProgress.ts:145-147 | a lesson is completed exactly when some cached entry for it says completed, so never without an entry |
| LessonProgress.UpdateWhere | src/hooks/useLessonProgress.ts:80-84 | the map keeps the length, changes the entries for the lesson and leaves every other entry as it was |
| LessonProgress.ProgressCache.constructor | src/hooks/useLessonProgress.ts:14-15 | the cache starts empty and loading |
| LessonProgress.ProgressCache.FetchProgress | src/hooks/useLessonProgress.ts:18-49 | without a user the cache empties; a failed read keeps it; a successful read replaces it row by row; loading ends in every case |
| LessonProgress.ProgressCache.IsLessonCompleted | src/hooks/useLessonProgress.ts:145-147 | `isLessonCompleted` holds exactly when some entry of the cache for the lesson says completed, and never for a lesson without an entry |
| LessonProgress.ProgressCache.GetQuizScore | src/hooks/useLessonProgress.ts:150-152 | `getQuizScore` is the quiz score of the first cache entry for the lesson, and absent when the lesson has no entry |
| LessonProgress.ProgressCache.MarkAsCompleted | src/hooks/useLessonProgress.ts:56-97 | succeeds iff signed in and the upsert succeeds, and only then applies the update-or-append |
| LessonProgress.ProgressCache.SaveQuizScore | src/hooks/useLessonProgress.ts:100-142 | succeeds iff signed in and the upsert succeeds, and only then applies the update-or-append with the score |
| LessonProgress.MarkCompletedEffect | src/hooks/useLessonProgress.ts:77-90 | afterwards the lesson is completed with its old quiz score, and other lessons' entries, completion and scores are unchanged |
| LessonProgress.RecordScoreEffect | src/hooks/useLessonProgress.ts:122-135 | afterwards the lesson is completed with the new score, and other lessons are unchanged |
| LessonProgress.MarkCompletedShape | src/hooks/useLessonProgress.ts:78-89 | an existing entry is updated in place (same length), else exactly one is appended; unique lesson ids stay unique |
| LessonProgress.RecordScoreShape | src/hooks/useLessonProgress.ts:123-134 | the same shape guarantees for saving a score |
| LessonProgress.MarkCompletedIdempotent | src/hooks/useLessonProgress.ts:77-90 | marking twice equals marking once with the later time: no second entry |
| LessonProgress.RecordScoreLatestWins | src/hooks/useLessonProgress.ts:125-128 | saving two scores in a row equals saving only the later one |
| LessonPage.Score | src/pages/Lesson.tsx:72-76 | the score is at most the number of questions |
| LessonPage.ScoreCountsRightAnswers | src/pages/Lesson.tsx:72-76 | for all questions and answers, the score is the number of positions i where answer i exists and equals question i's correct option |
| LessonPage.ScoreOfAnswerKey | src/pages/Lesson.tsx:72-76 | answering every question with its correct option scores every question |
| LessonPage.ScoreOfWrongAnswers | src/pages/Lesson.tsx:72-76 | answers that miss the correct option everywhere score 0 |
| LessonPage.ScorePercentage | src/pages/Lesson.tsx:78 | NaN (None) exactly for no questions; otherwise the nearest integer to 100·score/n, within 0..100 |
| LessonPage.PassingScore | src/pages/Lesson.tsx:79 | the quiz's pass mark, or 70 when it is 0 |
| LessonPage.Passed | src/pages/Lesson.tsx:79 | a NaN percentage never passes; a defined one passes exactly when it reaches the threshold |
| LessonPage.EarnedPoints | src/pages/Lesson.tsx:80 | the quiz's reward when passed, else 0 |
| LessonPage.PassMarkBoundary | src/pages/Lesson.tsx:78-79 | with 10 questions and pass mark 70, 7 right is 70% and passes, 6 right is 60% and fails |
| LessonPage.QuizAttempt.constructor | src/pages/Lesson.tsx:14-19 | the page starts outside the quiz, at question 0, with no answers or selection |
| LessonPage.QuizAttempt.Start | src/pages/Lesson.tsx:304-308 | "Iniciar Prova" opens the quiz at question 0 with nothing answered |
| LessonPage.QuizAttempt.SelectAnswer | src/pages/Lesson.tsx:51-54 | a selection is ignored once the question is confirmed, and otherwise replaces the pending one |
| LessonPage.QuizAttempt.ConfirmAnswer | src/pages/Lesson.tsx:56-60 | with no selection nothing changes; otherwise the selection is appended to the answers and the question is answered |
| LessonPage.QuizAttempt.NextQuestion | src/pages/Lesson.tsx:62-70 | before the last question: next index, selection and answered flag cleared; on the last: the result is shown |
| LessonPage.QuizAttempt.HasPassed | src/pages/Lesson.tsx:72-79 | `passed` never holds without questions; it holds when every answer is right and the pass mark is at most 100, and fails when nothing is right and the pass mark is positive |
| LessonPage.QuizAttempt.Retry | src/pages/Lesson.tsx:128-138 | offered only after a failed result; back to question 0 with no answers, no selection, result hidden |
| LessonPage.ResultScreenHasOneAnswerPerQuestion | src/pages/Lesson.tsx:56-70 | on the result screen there is exactly one answer per question, and the percentage is defined and within 0..100 |
| LessonLookup.LessonById | src/hooks/useLessonById.ts:23-97 | null without an id, lesson or module, and lesson or module read errors abort; completion needs a user and a completed row; text defaults; quiz fields present iff a quiz row exists |
| LessonLookup.QuizViewsAgree | src/hooks/useLessonById.ts:79-93 | `quizInfo` and `quiz` copy the same quiz row's id, title, pass mark and reward; the quiz is for the requested lesson and has no questions yet |
| LessonLookup.ToTakingQuestion | src/hooks/useLessonById.ts:128-133 | missing id or text becomes "", non-array options become [], an empty explanation becomes absent |
| LessonLookup.QuizQuestionsForLesson | src/hooks/useLessonById.ts:106-134 | no id or no quiz gives no questions; read errors abort; otherwise one question per row in the order read |
| Quizzes.OptionsOf | src/hooks/useQuizzes.ts:57 | an array of options is kept, any other JSON value becomes [] |
| Quizzes.Normalise | src/hooks/useQuizzes.ts:88-91 | only the options change; every other question field is copied |
| Quizzes.NormalisePublic | src/hooks/useQuizzes.ts:55-58 | only the options change; every other public question field is copied |
| Quizzes.OwnRows | src/hooks/useQuizzes.ts:86-87 | a quiz's question rows are exactly the rows with its id, in the order read (an order-preserving sublist) |
| Quizzes.QuestionsOf | src/hooks/useQuizzes.ts:86-91 | a quiz holds one question per row of its own, position by position: question i is row i of its own rows, normalised |
| Quizzes.QuestionsOfExactly | src/hooks/useQuizzes.ts:86-87 | every question row with the quiz's id appears, normalised, and nothing else does |
| Quizzes.UseQuizzes | src/hooks/useQuizzes.ts:69-93 | either read's error aborts; otherwise one entry per quiz row in order, each with its own questions |
| Quizzes.UseQuizForLesson | src/hooks/useQuizzes.ts:32-59 | null without a lesson id or a quiz; read errors abort; otherwise the quiz with its questions normalised in the order read |
| Quizzes.VerifyAnswer | src/hooks/useQuizzes.ts:192-207 | a failed read aborts; otherwise correct iff the selected option is the stored one, which is returned with the explanation (`verifyAnswer` in src/hooks/useLessonById.ts:140-158 is the same decision) |
| Quizzes.VerifyReportedOption | src/hooks/useQuizzes.ts:203-206 | selecting the option a verdict reports as correct is judged correct |
| QuizManager.QuizRequest | src/components/admin/QuizManager.tsx:59-71 | refused iff the title is empty; scores are `parseInt(..) \|\| 70` and `parseInt(..) \|\| 100` |
| QuizManager.QuizScoresAsTyped | src/components/admin/QuizManager.tsx:69-70 | a non-zero score typed in decimal is stored as typed |
| QuizManager.QuizScoresFallBack | src/components/admin/QuizManager.tsx:69-70 | a score that parses to NaN or 0 falls back to 70 (pass mark) and 100 (reward) |
| QuizManager.StoredOptions | src/components/admin/QuizManager.tsx:97-102 | the stored options are the filled fields in field order: a text is stored exactly when it is non-empty and one of the four fields, the result is an order-preserving sublist of the four fields, its length is the number of filled fields, and it starts with options 1 and 2 when those are filled |
| QuizManager.QuestionRequest | src/components/admin/QuizManager.tsx:91-115 | refused when the text, option 1 or option 2 is empty, then when the index is not below the stored option count; accepted questions have 2..4 options and an index within them |
| QuizManager.AcceptedQuestionIsAnswerable | src/components/admin/QuizManager.tsx:97-107 | an accepted question's correct index names one of its stored options |
| QuizManager.BlankThirdOptionShiftsFourth | src/components/admin/QuizManager.tsx:97-107 | as written, a blank option 3 and a filled option 4 store option 4 at index 2: the fourth button is refused and the blank third marks option 4 correct |
| QuizManager.LessonQuiz | src/components/admin/QuizManager.tsx:57 | the managed quiz is the first quiz for the lesson, or none when no quiz names it |
| QuizManager.QuizPanel.constructor | src/components/admin/QuizManager.tsx:37-49 | dialogs closed and both forms at their defaults |
| QuizManager.QuizPanel.ChooseCorrectOption | src/components/admin/QuizManager.tsx:255-261 | option button `num` sets the correct index to num − 1 and changes nothing else |
| QuizManager.QuizPanel.CreateQuiz | src/components/admin/QuizManager.tsx:59-78 | sends the checked request only when the title is set; on success the dialog closes and the form resets, otherwise it is kept |
| QuizManager.QuizPanel.CreateQuestion | src/components/admin/QuizManager.tsx:91-134 | sends the checked request only when it passes; on success the dialog closes and the form resets, otherwise it is kept |
| CourseDetailPage.FindCourse | src/pages/CourseDetail.tsx:28-41 | the first course with the route's id, or the not-found view when there is no id or no match |
| CourseDetailPage.Toggled | src/pages/CourseDetail.tsx:43-49 | an open module is removed, a closed one appended, and every other module keeps its state |
| CourseDetailPage.ToggleTwiceRestores | src/pages/CourseDetail.tsx:43-49 | toggling the same module twice restores every module's open state |
| CourseDetailPage.ToggleClosedTwice | src/pages/CourseDetail.tsx:43-49 | opening a closed module and closing it again restores the list exactly |
| CourseDetailPage.ModuleSections.constructor | src/pages/CourseDetail.tsx:26 | no module starts open |
| CourseDetailPage.ModuleSections.Toggle | src/pages/CourseDetail.tsx:43-49 | the module's open state flips and every other module's stays |
| CourseDetailPage.ModuleCompleted | src/pages/CourseDetail.tsx:123 | a module is completed exactly when its completed count equals its lesson count, so an empty module is completed |
| CourseDetailPage.ModuleProgress | src/pages/CourseDetail.tsx:124-126 | NaN (None) exactly for an empty module; otherwise the nearest integer to 100·completed/lessons (halves up), within 0..100, 100 when completed and 0 when nothing is |
| CourseDetailPage.FullProgressMeansCompleted | src/pages/CourseDetail.tsx:124-126 | below 200 lessons, a module shows 100% only when completed |
| CourseDetailPage.RoundsToFullBeforeCompletion | src/pages/CourseDetail.tsx:124-126 | 199 of 200 lessons already shows 100% |
| CourseDetailPage.IsLocked | src/pages/CourseDetail.tsx:167 | a locked lesson has an uncompleted lesson before it, so the first lesson and any lesson after only completed ones is unlocked |
| CourseDetailPage.LockDependsOnPreviousOnly | src/pages/CourseDetail.tsx:167 | whether a lesson is locked depends only on the lesson just before it |
| CourseDetailPage.FirstOpenLessonIsNext | src/pages/CourseDetail.tsx:167 | with lessons done in order, lessons up to the first open one are unlocked and every later one is locked |
| Browse.EmptyQueryMatches | src/pages/Courses.tsx:20-21 | an empty search matches every item |
| Browse.SearchIgnoresQueryCase | src/pages/Materials.tsx:17-19 | the search gives the same answer for a query and its lower-cased form |
| CoursesPage.FilteredCourses | src/pages/Courses.tsx:19-35 | a course is shown exactly when it is in the catalogue and matches search, category and status |
| CoursesPage.FilteredKeepsOrder | src/pages/Courses.tsx:19-35 | the result keeps catalogue order |
| CoursesPage.NoFilterShowsAll | src/pages/Courses.tsx:15-35 | no search with "Todos" category and status shows the whole catalogue |
| CoursesPage.CategoryNarrows | src/pages/Courses.tsx:23 | a specific category's result is an order-preserving sublist of the "Todos" result |
| CoursesPage.StatusesSplitTheCatalogue | src/pages/Courses.tsx:25-32 | for progress in 0..100, each course of the "Todos" result is in exactly one of the three status results |
| MaterialsPage.FilteredMaterials | src/pages/Materials.tsx:16-25 | a material is shown exactly when it is in the library and matches search and category |
| MaterialsPage.FilteredKeepsOrder | src/pages/Materials.tsx:16-25 | the result keeps library order |
| MaterialsPage.NoFilterShowsAll | src/pages/Materials.tsx:13-25 | no search with "Todos" shows the whole library |
| MaterialsPage.CategoryNarrows | src/pages/Materials.tsx:21-24 | a specific category's result is an order-preserving sublist of the "Todos" result |
| DashboardPage.InProgressCourses | src/pages/Dashboard.tsx:14-16 | exactly the courses with 0 < progress < 100, missing progress as 0 |
| DashboardPage.FinishedCourses | src/pages/Dashboard.tsx:18 | exactly the courses with progress 100 |
| DashboardPage.InProgressAndFinishedDisjoint | src/pages/Dashboard.tsx:14-18 | no course is both in progress and finished |
| DashboardPage.ProgressSum | src/pages/Dashboard.tsx:19-21 | with every progress value within 0..100, the sum lies within 0..100 per course |
| DashboardPage.ProgressSumUniform | src/pages/Dashboard.tsx:19-21 | when every course has progress p, the sum is p times the course count |
| DashboardPage.OverallProgress | src/pages/Dashboard.tsx:19-21 | NaN (None) exactly for no courses; otherwise the mean progress rounded to the nearest integer, halves up |
| DashboardPage.OverallWithinRange | src/pages/Dashboard.tsx:19-21 | with progress values within 0..100, the overall progress is within 0..100 |
| DashboardPage.OverallOfUniform | src/pages/Dashboard.tsx:19-21 | when every course has progress p, the overall progress is p |
| DashboardPage.ContinueLearning | src/pages/Dashboard.tsx:84 | `slice(0, 2)` of the in-progress courses: a prefix of them of length min(2, their count), all in progress, in catalogue order |
| DashboardPage.NotStartedCourses | src/pages/Dashboard.tsx:99-100 | exactly the courses whose progress, missing as 0, is 0, in catalogue order |
| DashboardPage.Recommended | src/pages/Dashboard.tsx:99-101 | `slice(0, 2)` of the not-started courses: a prefix of them of length min(2, their count), all not started, in catalogue order |
| Users.RoleOf | src/hooks/useUsers.ts:36-43 | 'user' without a role row; a role other than 'user' comes from the first row for the user |
| Users.RoleOfFirstRow | src/hooks/useUsers.ts:36-43 | the role is exactly that of the first row for the user ('admin' stays 'admin'), or 'user' when that row's role is empty |
| Users.RoleIgnoresOtherUsers | src/hooks/useUsers.ts:36 | role rows of other users, before or after, do not change a user's role |
| Users.WithRole | src/hooks/useUsers.ts:35-46 | id, user id, name, e-mail, points and creation time are copied; the role is looked up |
| Users.UseUsers | src/hooks/useUsers.ts:18-49 | either read's error aborts; otherwise one user per profile row, in order |
| Users.CreateUser | src/hooks/useUsers.ts:57-77 | invoked iff there is a session; 'Not authenticated' without one; the invoke error, then the body's `error`, fail the call; otherwise the body is returned |
| Users.NoSessionIgnoresResponse | src/hooks/useUsers.ts:58-62 | without a session the outcome does not depend on the function's answer |
| CreateUserFunction.NormalisedRole | supabase/functions/create-user/index.ts:82 | 'admin' exactly when 'admin' was requested, otherwise 'user' |
| CreateUserFunction.Handle | supabase/functions/create-user/index.ts:8-127 | OPTIONS gets the bare CORS answer; a missing authorization header is 401 first; every status is one of 200, 400, 401, 403, 500 |
| CreateUserFunction.UnknownCallerIsUnauthorized | supabase/functions/create-user/index.ts:41-48 | a token whose user lookup fails or finds no one gets 401 'Unauthorized', with no write |
| CreateUserFunction.MissingFieldsAreBadRequest | supabase/functions/create-user/index.ts:67-73 | an admin's body missing the e-mail, password or name gets 400 'Email, password and name are required', with no write |
| CreateUserFunction.ShortPasswordIsBadRequest | supabase/functions/create-user/index.ts:75-80 | with all fields present, a password under 6 characters gets 400 'Password must be at least 6 characters', with no write |
| CreateUserFunction.CreateFailureIsBadRequest | supabase/functions/create-user/index.ts:84-97 | a failed account creation gets 400 with the failure's message, after the single creation attempt |
| CreateUserFunction.WritesOnlyForAdminWithValidBody | supabase/functions/create-user/index.ts:51-105 | something is written iff an authenticated admin sent a valid body, and the first write creates the requested account |
| CreateUserFunction.RoleCheckedBeforeBody | supabase/functions/create-user/index.ts:51-65 | a non-admin caller gets 403 whatever the body, with no write |
| CreateUserFunction.SuccessReportsNormalisedRole | supabase/functions/create-user/index.ts:82-116 | success reports the normalised role and the name; the role row is promoted exactly for an admin role with a known new user |
| CreateUserFunction.UnreadableBodyIsServerError | supabase/functions/create-user/index.ts:120-125 | an unreadable body gives 500 with the error's message, or 'Unknown error occurred' |
| Auth.FindByEmail | src/contexts/AuthContext.tsx:37 | a mock user with that e-mail, or none exactly when no mock user has it |
| Auth.DemoAccounts | src/contexts/AuthContext.tsx:15-31 | the two demo addresses find João (role user) and Admin (role admin) |
| Auth.ContextValue | src/contexts/AuthContext.tsx:53-54 | authenticated iff a user is set; admin iff that user's role is 'admin' |
| Auth.UseAuth | src/contexts/AuthContext.tsx:64-70 | outside a provider the hook fails with its message; inside it returns the context |
| Auth.AuthProvider.constructor | src/contexts/AuthContext.tsx:34 | the demo starts signed in as the first mock user |
| Auth.AuthProvider.Login | src/contexts/AuthContext.tsx:36-43 | succeeds iff a mock user has the e-mail, whatever the password, and then signs in as the user found for it; a failure keeps the current user |
| Auth.AuthProvider.Logout | src/contexts/AuthContext.tsx:45-47 | no user is signed in afterwards |

## Left out

- Backend queries, upserts, RPCs and the function invoke are not modelled as calls. Their outcomes are inputs, and the server-side ordering (`order(...)`) is taken as the order of the input rows.
- React Query caching and invalidation, `useEffect` lifecycles, toasts, `confirm()` dialogs and console logging are left out as UI or I/O.
- The `enabled`/`shouldFetch` flags are left out: they only decide whether a query function runs at all.
- The create, update and delete mutation hooks of `useCourses.ts` and `useQuizzes.ts` are left out. Each is a single backend call.
- Which user is signed in for the backend hooks is an input (`signedIn`). `AuthContext.tsx` as given only holds the demo user.
- Timestamps from `new Date().toISOString()` are opaque string parameters.
- Text.Lower: only ASCII letters are case-mapped. JavaScript's Unicode `toLowerCase` also maps accented capitals.
- Numeric.ParseInt: only ASCII spaces, tabs and line breaks count as leading whitespace. JavaScript also skips other Unicode spaces.
- Numeric.ParseInt: values are exact integers. JavaScript loses precision above 2^53.
- Floating-point effects of `c / t * 100` and `minutes + seconds / 60` are left out: the model computes these exactly, and so does not reproduce rare rounding slips at .5 boundaries.
- Durations are summed in exact whole seconds. The application sums floating-point minutes.
- CreateUserFunction.Handle: the body fields are taken to be text. A non-string password (whose `.length` is undefined) is not modelled.
- CreateUserFunction.Handle: the password length is counted in characters, not UTF-16 code units.
- CreateUserFunction.Handle: exceptions thrown by the awaited backend calls are not modelled. Only a body that cannot be read reaches the catch block.
- LessonPage.QuizAttempt: a quiz with no questions has no question screen (the page would fail reading `questions[0]`). The question handlers therefore require a current question.
- LessonPage: the page finds its lesson in the mock catalogue. That lookup and the "Aula não encontrada." view are left out; the class is for a lesson that has a quiz.
- LessonPage: quiz completion is not persisted, because the page never calls `saveQuizScore` or `verifyAnswer`.
- `completed?` on a lesson is read only for truthiness, so the model takes an absent flag as false.
- Races between concurrent upserts are left out. Uniqueness of (user, lesson) rows is the database's `onConflict` target; the cache's own key uniqueness is proved.
- Lists.IsSublist and LessonProgress.UniqueKeys are ghost predicates. They state order and uniqueness for proofs only.
