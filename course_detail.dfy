/** src/pages/CourseDetail.tsx: one course's page, with collapsible modules, per-module
    completion and progress, and lessons locked until the previous one is completed. */
module CourseDetailPage {
  import opened Wrappers
  import opened Types
  import Lists
  import Numeric

  /** `mockCourses.find((c) => c.id === courseId)`; no route parameter never matches.
      `None` is the "Curso não encontrado." view. */
  function FindCourse(courses: seq<Course>, courseId: Option<string>): (r: Option<Course>)
    ensures r.None? <==> courseId.None? || forall i :: 0 <= i < |courses| ==> courses[i].id != courseId.value
    ensures r.Some? ==> r.value in courses && Some(r.value.id) == courseId
    ensures r.Some? ==> exists i :: 0 <= i < |courses| && courses[i] == r.value && forall j :: 0 <= j < i ==> courses[j].id != r.value.id
  {
    match courseId
    case None => None
    case Some(id) => Lists.FindFirst(courses, (c: Course) => c.id == id)
  }

  /** `toggleModule`'s update: remove every copy of the id if present, else append it. */
  function Toggled(open: seq<string>, moduleId: string): (r: seq<string>)
    ensures moduleId in open ==> moduleId !in r
    ensures moduleId !in open ==> r == open + [moduleId]
    ensures forall id :: id != moduleId ==> (id in r <==> id in open)
  {
    if moduleId in open then Lists.Filter(open, (id: string) => id != moduleId) else open + [moduleId]
  }

  /** Toggling the same module twice restores whether every module is open. */
  lemma ToggleTwiceRestores(open: seq<string>, moduleId: string)
    ensures forall id :: id in Toggled(Toggled(open, moduleId), moduleId) <==> id in open
  {
  }

  /** Opening a closed module and closing it again restores the list itself, order included. */
  lemma ToggleClosedTwice(open: seq<string>, moduleId: string)
    requires moduleId !in open
    ensures Toggled(Toggled(open, moduleId), moduleId) == open
  {
    Lists.FilterAll(open, (id: string) => id != moduleId);
    var t := open + [moduleId];
    assert Lists.Filter(t, (id: string) => id != moduleId) == Lists.Filter(open, (id: string) => id != moduleId) by {
      FilterDropLast(open, moduleId);
    }
  }

  lemma {:induction false} FilterDropLast(s: seq<string>, x: string)
    ensures Lists.Filter(s + [x], (id: string) => id != x) == Lists.Filter(s, (id: string) => id != x)
  {
    if s != [] {
      FilterDropLast(s[1..], x);
      assert (s + [x])[1..] == s[1..] + [x];
    } else {
      assert Lists.Filter([x], (id: string) => id != x) == [] by {
        assert [x][1..] == [];
      }
    }
  }

  /** The open modules of the page (`openModules`, initially empty). */
  class ModuleSections {
    var openModules: seq<string>

    constructor ()
      ensures openModules == []
    {
      openModules := [];
    }

    /** `openModules.includes(module.id)`. */
    predicate IsOpen(moduleId: string)
      reads this
    {
      moduleId in openModules
    }

    /** `toggleModule`: open a closed module, close an open one; every other module keeps its state. */
    method Toggle(moduleId: string)
      modifies this
      ensures openModules == Toggled(old(openModules), moduleId)
      ensures IsOpen(moduleId) <==> !old(IsOpen(moduleId))
      ensures forall id :: id != moduleId ==> (IsOpen(id) <==> old(IsOpen(id)))
    {
      openModules := Toggled(openModules, moduleId);
    }
  }

  /** `module.lessons.every((l) => l.completed)`: the checkmark is shown exactly when the
      completed count reaches the lesson count, so also for a module without lessons. */
  predicate ModuleCompleted(m: Module): (done: bool)
    ensures done <==> CompletedIn(m) == |m.lessons|
    ensures |m.lessons| == 0 ==> done
  {
    forall i :: 0 <= i < |m.lessons| ==> m.lessons[i].completed
  }

  /** `moduleProgress`: `Math.round(done / lessons.length * 100)`, `NaN` (`None`) for a module
      without lessons, which the page does not guard against. */
  function ModuleProgress(m: Module): (r: Option<int>)
    ensures r.None? <==> |m.lessons| == 0
    ensures r.Some? ==> 0 <= r.value <= 100
    ensures r.Some? && ModuleCompleted(m) ==> r.value == 100
    ensures r.Some? && CompletedIn(m) == 0 ==> r.value == 0
    ensures r.Some? ==> 2 * |m.lessons| * r.value <= 200 * CompletedIn(m) + |m.lessons| < 2 * |m.lessons| * (r.value + 1)
  {
    if |m.lessons| == 0 then None else Some(Numeric.Percent(CompletedIn(m), |m.lessons|))
  }

  /** Below 200 lessons, 100% is shown only for a completed module. */
  lemma FullProgressMeansCompleted(m: Module)
    requires 0 < |m.lessons| < 200
    requires ModuleProgress(m) == Some(100)
    ensures ModuleCompleted(m)
  {
    var t, c := |m.lessons|, CompletedIn(m);
    if c < t {
      Numeric.MulAtMost(200, c, t - 1);
    }
  }

  /** From 200 lessons on, rounding can show 100% while a lesson is still open: 199 of 200 is
      99.5%, which rounds up. */
  lemma RoundsToFullBeforeCompletion()
    ensures Numeric.Percent(199, 200) == 100
  {
  }

  /** `isLocked`: a lesson after the first is locked while the lesson just before it is not
      completed. */
  predicate IsLocked(lessons: seq<Lesson>, i: int): (locked: bool)
    requires 0 <= i < |lessons|
    ensures locked ==> exists j :: 0 <= j < i && !lessons[j].completed
    ensures (forall j :: 0 <= j < i ==> lessons[j].completed) ==> !locked
  {
    i > 0 && !lessons[i - 1].completed
  }

  /** Locking looks only at the previous lesson: two modules that agree on it agree on the lock,
      whatever the earlier lessons. */
  lemma LockDependsOnPreviousOnly(a: seq<Lesson>, b: seq<Lesson>, i: int)
    requires 0 < i < |a| && i < |b| && a[i - 1].completed == b[i - 1].completed
    ensures IsLocked(a, i) == IsLocked(b, i)
  {
  }

  /** In a module whose lessons are done in order, the first open lesson is reachable and every
      lesson after it is locked. */
  lemma FirstOpenLessonIsNext(lessons: seq<Lesson>, k: int)
    requires 0 <= k < |lessons|
    requires forall j :: 0 <= j < k ==> lessons[j].completed
    requires forall j :: k <= j < |lessons| ==> !lessons[j].completed
    ensures forall j :: 0 <= j <= k ==> !IsLocked(lessons, j)
    ensures forall j :: k < j < |lessons| ==> IsLocked(lessons, j)
  {
  }
}
