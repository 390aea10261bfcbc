/** The view-model records of src/types/index.ts, and the lesson counts computed over them. */
module Types {
  import opened Wrappers
  import Lists

  datatype Question = Question(id: string, text: string, options: seq<string>, correctOption: int, explanation: Option<string>)

  datatype Quiz = Quiz(id: string, lessonId: string, title: string, questions: seq<Question>, passingScore: int, pointsReward: int)

  /** `completed?: boolean` is read only for its truthiness, so an absent flag is `false` here. */
  datatype Lesson = Lesson(
    id: string, moduleId: string, title: string, description: string, videoUrl: string,
    duration: string, order: int, completed: bool, quiz: Option<Quiz>)

  datatype Module = Module(id: string, courseId: string, title: string, order: int, lessons: seq<Lesson>)

  datatype Course = Course(
    id: string, title: string, description: string, thumbnail: string, totalModules: int,
    totalDuration: string, difficulty: string, category: string, progress: Option<int>,
    modules: seq<Module>)

  datatype Material = Material(id: string, title: string, description: string, kind: string, url: string, category: string, courseId: Option<string>)

  datatype User = User(id: string, name: string, email: string, avatar: Option<string>, role: string, points: int, rank: Option<int>)

  /** `course.progress || 0`. */
  function ProgressOrZero(c: Course): int {
    c.progress.GetOr(0)
  }

  /** Started but not finished: `(c.progress || 0) > 0 && (c.progress || 0) < 100`. */
  predicate IsInProgress(c: Course) {
    0 < ProgressOrZero(c) < 100
  }

  /** Finished: `c.progress === 100` (no `|| 0` here, which makes no difference). */
  predicate IsFinished(c: Course) {
    c.progress == Some(100)
  }

  /** Not started: `(c.progress || 0) === 0`. */
  predicate IsNotStarted(c: Course) {
    ProgressOrZero(c) == 0
  }

  /** For a progress within 0..100, every course is in exactly one of the three states. */
  lemma CourseStatesPartition(c: Course)
    requires 0 <= ProgressOrZero(c) <= 100
    ensures IsInProgress(c) || IsFinished(c) || IsNotStarted(c)
    ensures !(IsInProgress(c) && IsFinished(c)) && !(IsInProgress(c) && IsNotStarted(c)) && !(IsFinished(c) && IsNotStarted(c))
  {
  }

  predicate IsCompleted(l: Lesson) {
    l.completed
  }

  /** `m.lessons.filter((l) => l.completed).length`. */
  function CompletedIn(m: Module): (n: nat)
    ensures n <= |m.lessons|
    ensures n == |m.lessons| <==> forall i :: 0 <= i < |m.lessons| ==> m.lessons[i].completed
  {
    Lists.Count(m.lessons, IsCompleted)
  }

  /** `modules.reduce((acc, m) => acc + m.lessons.length, 0)`. */
  function TotalLessons(mods: seq<Module>): nat {
    if mods == [] then 0 else |mods[0].lessons| + TotalLessons(mods[1..])
  }

  /** `modules.reduce((acc, m) => acc + m.lessons.filter((l) => l.completed).length, 0)`. */
  function CompletedLessons(mods: seq<Module>): nat {
    if mods == [] then 0 else CompletedIn(mods[0]) + CompletedLessons(mods[1..])
  }

  /** A lesson at position `k` of module `j`. */
  predicate LessonAt(mods: seq<Module>, j: int, k: int) {
    0 <= j < |mods| && 0 <= k < |mods[j].lessons|
  }

  /** The completed count never exceeds the lesson count; it is zero when no lesson is
      completed and equal to it when every lesson is. */
  lemma {:induction false} CompletedBounds(mods: seq<Module>)
    ensures CompletedLessons(mods) <= TotalLessons(mods)
    ensures (forall j, k :: LessonAt(mods, j, k) ==> !mods[j].lessons[k].completed) ==> CompletedLessons(mods) == 0
    ensures (forall j, k :: LessonAt(mods, j, k) ==> mods[j].lessons[k].completed) ==> CompletedLessons(mods) == TotalLessons(mods)
  {
    if mods != [] {
      CompletedBounds(mods[1..]);
      if forall j, k :: LessonAt(mods, j, k) ==> !mods[j].lessons[k].completed {
        assert forall k :: 0 <= k < |mods[0].lessons| ==> !mods[0].lessons[k].completed by {
          forall k | 0 <= k < |mods[0].lessons| ensures !mods[0].lessons[k].completed {
            assert LessonAt(mods, 0, k);
          }
        }
        forall j, k | LessonAt(mods[1..], j, k) ensures !mods[1..][j].lessons[k].completed {
          assert LessonAt(mods, j + 1, k);
        }
      }
      if forall j, k :: LessonAt(mods, j, k) ==> mods[j].lessons[k].completed {
        forall k | 0 <= k < |mods[0].lessons| ensures mods[0].lessons[k].completed {
          assert LessonAt(mods, 0, k);
        }
        forall j, k | LessonAt(mods[1..], j, k) ensures mods[1..][j].lessons[k].completed {
          assert LessonAt(mods, j + 1, k);
        }
      }
    }
  }
}

/** The database rows the hooks read, one datatype per table. Nullable columns are `Option`. */
module Rows {
  import opened Wrappers

  datatype CourseRow = CourseRow(id: string, title: string, description: string, thumbnail: Option<string>, difficulty: string, category: string)

  datatype ModuleRow = ModuleRow(id: string, courseId: string, title: string, orderIndex: int)

  datatype LessonRow = LessonRow(
    id: string, moduleId: string, title: string, description: Option<string>,
    videoUrl: Option<string>, duration: Option<string>, orderIndex: int)

  /** `value || fallback` on a nullable text column: null and the empty string are both falsy. */
  function TextOr(value: Option<string>, fallback: string): (r: string)
    ensures value.Some? && value.value != "" ==> r == value.value
    ensures value.None? || value.value == "" ==> r == fallback
  {
    if value.Some? && value.value != "" then value.value else fallback
  }

  /** A truthy text value: present and not the empty string (`!!value`). */
  predicate Present(value: Option<string>) {
    value.Some? && value.value != ""
  }

  /** `value || undefined` on a nullable text column: the empty string becomes absent. */
  function NonEmpty(value: Option<string>): (r: Option<string>)
    ensures r.Some? <==> Present(value)
    ensures r.Some? ==> r == value
  {
    if Present(value) then value else None
  }
}
