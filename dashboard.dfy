/** src/pages/Dashboard.tsx: the learner's home page, which classifies the catalogue by
    progress, averages the progress and picks the courses to continue and to start. */
module DashboardPage {
  import opened Wrappers
  import opened Types
  import Lists
  import Numeric

  /** `inProgressCourses`. */
  function InProgressCourses(courses: seq<Course>): (r: seq<Course>)
    ensures forall c :: c in r <==> c in courses && IsInProgress(c)
    ensures Lists.IsSublist(r, courses)
  {
    Lists.FilterIsSublist(courses, IsInProgress);
    Lists.Filter(courses, IsInProgress)
  }

  /** `completedCourses`. */
  function FinishedCourses(courses: seq<Course>): (r: seq<Course>)
    ensures forall c :: c in r <==> c in courses && c.progress == Some(100)
    ensures Lists.IsSublist(r, courses)
  {
    Lists.FilterIsSublist(courses, IsFinished);
    Lists.Filter(courses, IsFinished)
  }

  /** No course is both in progress and finished. */
  lemma InProgressAndFinishedDisjoint(courses: seq<Course>)
    ensures forall c :: c in InProgressCourses(courses) ==> c !in FinishedCourses(courses)
  {
  }

  /** Every course's progress lies within 0..100 (missing progress counting as 0). */
  predicate ProgressInRange(courses: seq<Course>) {
    forall i :: 0 <= i < |courses| ==> 0 <= ProgressOrZero(courses[i]) <= 100
  }

  /** `courses.reduce((acc, c) => acc + (c.progress || 0), 0)`. With every progress value
      within 0..100, the sum lies within 0..100 per course. */
  function ProgressSum(courses: seq<Course>): (sum: int)
    ensures ProgressInRange(courses) ==> 0 <= sum <= 100 * |courses|
  {
    if courses == [] then 0
    else
      assert ProgressInRange(courses) ==> ProgressInRange(courses[1..]);
      ProgressOrZero(courses[0]) + ProgressSum(courses[1..])
  }

  /** When every course has the same progress, the sum is that progress times the count. */
  lemma {:induction false} ProgressSumUniform(courses: seq<Course>, p: int)
    requires forall i :: 0 <= i < |courses| ==> ProgressOrZero(courses[i]) == p
    ensures ProgressSum(courses) == p * |courses|
  {
    if courses != [] {
      ProgressSumUniform(courses[1..], p);
      Numeric.MulSucc(p, |courses| - 1);
    }
  }

  /** `overallProgress`: `Math.round(sum / courses.length)`, `NaN` (`None`) for an empty catalogue.
      Otherwise it is the mean rounded to the nearest integer, halves up. */
  function OverallProgress(courses: seq<Course>): (r: Option<int>)
    ensures r.None? <==> |courses| == 0
    ensures r.Some? ==> 2 * |courses| * r.value <= 2 * ProgressSum(courses) + |courses| < 2 * |courses| * (r.value + 1)
  {
    if |courses| == 0 then None else Some(Numeric.RoundRatio(ProgressSum(courses), |courses|))
  }

  /** With every progress within 0..100, the overall progress is too. */
  lemma OverallWithinRange(courses: seq<Course>)
    requires |courses| > 0
    requires ProgressInRange(courses)
    ensures 0 <= OverallProgress(courses).value <= 100
  {
    var n, s, r := |courses|, ProgressSum(courses), OverallProgress(courses).value;
    if r < 0 {
      Numeric.MulAtMost(2 * n, r + 1, 0);
    }
    if r > 100 {
      Numeric.MulAtMost(2 * n, 101, r);
    }
  }

  /** When every course has the same progress `p`, the overall progress is `p`: all finished
      shows 100, none started shows 0. */
  lemma OverallOfUniform(courses: seq<Course>, p: int)
    requires |courses| > 0
    requires forall i :: 0 <= i < |courses| ==> ProgressOrZero(courses[i]) == p
    ensures OverallProgress(courses) == Some(p)
  {
    ProgressSumUniform(courses, p);
    Numeric.RoundOfMultiple(ProgressSum(courses), |courses|, p);
  }

  /** `mockCourses.filter(c => (c.progress || 0) === 0)`. */
  function NotStartedCourses(courses: seq<Course>): (r: seq<Course>)
    ensures forall c :: c in r <==> c in courses && IsNotStarted(c)
    ensures Lists.IsSublist(r, courses)
  {
    Lists.FilterIsSublist(courses, IsNotStarted);
    Lists.Filter(courses, IsNotStarted)
  }

  /** "Continuar Aprendendo": `inProgressCourses.slice(0, 2)`, the first two courses in
      progress in catalogue order, or all of them when there are fewer. */
  function ContinueLearning(courses: seq<Course>): (r: seq<Course>)
    ensures |r| == if |InProgressCourses(courses)| < 2 then |InProgressCourses(courses)| else 2
    ensures r <= InProgressCourses(courses)
    ensures forall c :: c in r ==> c in courses && IsInProgress(c)
    ensures Lists.IsSublist(r, courses)
  {
    var inProgress := InProgressCourses(courses);
    var r := Lists.Take(inProgress, 2);
    Lists.PrefixIsSublist(r, inProgress);
    Lists.SublistTransitive(r, inProgress, courses);
    r
  }

  /** "Recomendados para Você": the first two courses not started, in catalogue order, or all
      of them when there are fewer. */
  function Recommended(courses: seq<Course>): (r: seq<Course>)
    ensures |r| == if |NotStartedCourses(courses)| < 2 then |NotStartedCourses(courses)| else 2
    ensures r <= NotStartedCourses(courses)
    ensures forall c :: c in r ==> c in courses && IsNotStarted(c)
    ensures Lists.IsSublist(r, courses)
  {
    var notStarted := NotStartedCourses(courses);
    var r := Lists.Take(notStarted, 2);
    Lists.PrefixIsSublist(r, notStarted);
    Lists.SublistTransitive(r, notStarted, courses);
    r
  }
}
