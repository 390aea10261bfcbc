/** src/pages/Courses.tsx: the course catalogue filtered by search text, category and
    progress status. */
module CoursesPage {
  import opened Types
  import Browse
  import Lists

  const InProgressStatus := "Em Andamento"
  const FinishedStatus := "Concluídos"
  const NotStartedStatus := "Não Iniciados"

  /** `matchesStatus`: the three named statuses select their courses; any other selection,
      "Todos" among them, keeps every course. */
  predicate MatchesStatus(status: string, c: Course) {
    if status == InProgressStatus then IsInProgress(c)
    else if status == FinishedStatus then IsFinished(c)
    else if status == NotStartedStatus then IsNotStarted(c)
    else true
  }

  /** The `filter` predicate: search, category and status together. */
  predicate Shown(query: string, category: string, status: string, c: Course) {
    Browse.MatchesSearch(c.title, c.description, query) && Browse.MatchesCategory(category, c.category) && MatchesStatus(status, c)
  }

  /** `filteredCourses`. */
  function FilteredCourses(courses: seq<Course>, query: string, category: string, status: string): (r: seq<Course>)
    ensures |r| <= |courses|
    ensures forall c :: c in r <==> c in courses && Shown(query, category, status, c)
  {
    Lists.Filter(courses, c => Shown(query, category, status, c))
  }

  /** The filtered list keeps the catalogue's order. */
  lemma FilteredKeepsOrder(courses: seq<Course>, query: string, category: string, status: string)
    ensures Lists.IsSublist(FilteredCourses(courses, query, category, status), courses)
  {
    Lists.FilterIsSublist(courses, c => Shown(query, category, status, c));
  }

  /** With no search text and "Todos" for category and status, the whole catalogue is shown. */
  lemma NoFilterShowsAll(courses: seq<Course>)
    ensures FilteredCourses(courses, "", Browse.AllCategories, Browse.AllCategories) == courses
  {
    forall i | 0 <= i < |courses| ensures Shown("", Browse.AllCategories, Browse.AllCategories, courses[i]) {
      Browse.EmptyQueryMatches(courses[i].title, courses[i].description);
    }
    Lists.FilterAll(courses, c => Shown("", Browse.AllCategories, Browse.AllCategories, c));
  }

  /** Choosing a category narrows the "Todos" result for the same search and status, keeping
      its order. */
  lemma CategoryNarrows(courses: seq<Course>, query: string, category: string, status: string)
    ensures Lists.IsSublist(FilteredCourses(courses, query, category, status), FilteredCourses(courses, query, Browse.AllCategories, status))
  {
    Lists.FilterStrongerIsSublist(courses, c => Shown(query, category, status, c), c => Shown(query, Browse.AllCategories, status, c));
  }

  /** For progress values within 0..100, the three status filters split the "Todos" result: each
      course shown under "Todos" is shown under exactly one of them. */
  lemma StatusesSplitTheCatalogue(courses: seq<Course>, query: string, category: string)
    requires forall c :: c in courses ==> 0 <= ProgressOrZero(c) <= 100
    ensures forall c :: c in FilteredCourses(courses, query, category, Browse.AllCategories) <==>
      c in FilteredCourses(courses, query, category, InProgressStatus) ||
      c in FilteredCourses(courses, query, category, FinishedStatus) ||
      c in FilteredCourses(courses, query, category, NotStartedStatus)
    ensures forall c :: c in FilteredCourses(courses, query, category, InProgressStatus) ==>
      c !in FilteredCourses(courses, query, category, FinishedStatus) && c !in FilteredCourses(courses, query, category, NotStartedStatus)
    ensures forall c :: c in FilteredCourses(courses, query, category, FinishedStatus) ==>
      c !in FilteredCourses(courses, query, category, NotStartedStatus)
  {
    forall c | c in courses {
      CourseStatesPartition(c);
    }
  }
}
