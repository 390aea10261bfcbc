/** src/hooks/useCourses.ts, `useCourses`: three list reads joined into courses that hold
    their modules, which hold their lessons. */
module CourseCatalog {
  import opened Wrappers
  import opened Backend
  import opened Rows
  import Lists

  datatype ModuleWithLessons = ModuleWithLessons(row: ModuleRow, lessons: seq<LessonRow>)

  datatype CourseWithModules = CourseWithModules(course: CourseRow, modules: seq<ModuleWithLessons>)

  /** `modules.filter((m) => m.course_id === courseId)`. */
  function ModuleRowsOf(courseId: string, modules: seq<ModuleRow>): (r: seq<ModuleRow>)
    ensures forall m :: m in r <==> m in modules && m.courseId == courseId
    ensures Lists.IsSublist(r, modules)
  {
    var p := (m: ModuleRow) => m.courseId == courseId;
    Lists.FilterIsSublist(modules, p);
    Lists.Filter(modules, p)
  }

  /** `lessons.filter((l) => l.module_id === moduleId)`. */
  function LessonRowsOf(moduleId: string, lessons: seq<LessonRow>): (r: seq<LessonRow>)
    ensures forall l :: l in r <==> l in lessons && l.moduleId == moduleId
    ensures Lists.IsSublist(r, lessons)
  {
    var p := (l: LessonRow) => l.moduleId == moduleId;
    Lists.FilterIsSublist(lessons, p);
    Lists.Filter(lessons, p)
  }

  /** One course of the result: its module rows in fetched order, each with its lesson rows. */
  function AttachModules(c: CourseRow, modules: seq<ModuleRow>, lessons: seq<LessonRow>): (r: CourseWithModules)
    ensures r.course == c
    ensures |r.modules| == |ModuleRowsOf(c.id, modules)|
    ensures forall j :: 0 <= j < |r.modules| ==>
      r.modules[j].row == ModuleRowsOf(c.id, modules)[j] &&
      r.modules[j].lessons == LessonRowsOf(r.modules[j].row.id, lessons)
  {
    var ms := ModuleRowsOf(c.id, modules);
    CourseWithModules(c, seq(|ms|, j requires 0 <= j < |ms| => ModuleWithLessons(ms[j], LessonRowsOf(ms[j].id, lessons))))
  }

  /** The join: one entry per course row, in fetched order. */
  function Join(courses: seq<CourseRow>, modules: seq<ModuleRow>, lessons: seq<LessonRow>): (r: seq<CourseWithModules>)
    ensures |r| == |courses|
    ensures forall i :: 0 <= i < |r| ==> r[i] == AttachModules(courses[i], modules, lessons)
  {
    seq(|courses|, i requires 0 <= i < |courses| => AttachModules(courses[i], modules, lessons))
  }

  /** The query function: the first read that reports an error aborts with that error; absent
      data counts as no rows. */
  function UseCourses(coursesQ: Reply<seq<CourseRow>>, modulesQ: Reply<seq<ModuleRow>>, lessonsQ: Reply<seq<LessonRow>>): (r: Result<seq<CourseWithModules>>)
    ensures coursesQ.error.Some? ==> r == Err(coursesQ.error.value)
    ensures coursesQ.error.None? && modulesQ.error.Some? ==> r == Err(modulesQ.error.value)
    ensures coursesQ.error.None? && modulesQ.error.None? && lessonsQ.error.Some? ==> r == Err(lessonsQ.error.value)
    ensures r.Ok? <==> coursesQ.error.None? && modulesQ.error.None? && lessonsQ.error.None?
    ensures r.Ok? ==> r.value == Join(RowsOf(coursesQ), RowsOf(modulesQ), RowsOf(lessonsQ))
  {
    if coursesQ.error.Some? then Err(coursesQ.error.value)
    else if modulesQ.error.Some? then Err(modulesQ.error.value)
    else if lessonsQ.error.Some? then Err(lessonsQ.error.value)
    else Ok(Join(RowsOf(coursesQ), RowsOf(modulesQ), RowsOf(lessonsQ)))
  }

  /** Every module placed under a course belongs to it, and every lesson placed under a module
      belongs to that module; so a module whose course is not fetched, or a lesson whose module
      is not fetched, appears nowhere. */
  lemma JoinPlacesRowsUnderTheirParents(courses: seq<CourseRow>, modules: seq<ModuleRow>, lessons: seq<LessonRow>)
    ensures forall i, j :: 0 <= i < |courses| && 0 <= j < |Join(courses, modules, lessons)[i].modules| ==>
      var mw := Join(courses, modules, lessons)[i].modules[j];
      mw.row in modules && mw.row.courseId == courses[i].id &&
      forall l :: l in mw.lessons ==> l in lessons && l.moduleId == mw.row.id
  {
    var r := Join(courses, modules, lessons);
    forall i, j | 0 <= i < |courses| && 0 <= j < |r[i].modules|
      ensures r[i].modules[j].row in modules && r[i].modules[j].row.courseId == courses[i].id
    {
      assert r[i].modules[j].row == ModuleRowsOf(courses[i].id, modules)[j];
    }
  }

  /** Conversely every fetched module row of a fetched course is placed under it, and every
      fetched lesson row of such a module is placed under that module. */
  lemma JoinKeepsEveryChild(courses: seq<CourseRow>, modules: seq<ModuleRow>, lessons: seq<LessonRow>, i: nat, m: ModuleRow)
    requires i < |courses| && m in modules && m.courseId == courses[i].id
    ensures exists j :: (0 <= j < |Join(courses, modules, lessons)[i].modules| &&
      Join(courses, modules, lessons)[i].modules[j].row == m &&
      forall l :: l in lessons && l.moduleId == m.id ==> l in Join(courses, modules, lessons)[i].modules[j].lessons)
  {
    var ms := ModuleRowsOf(courses[i].id, modules);
    assert m in ms;
    var j :| 0 <= j < |ms| && ms[j] == m;
    assert Join(courses, modules, lessons)[i].modules[j].row == m;
  }
}
