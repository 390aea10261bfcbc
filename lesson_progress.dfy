/** src/hooks/useLessonProgress.ts: the signed-in user's lesson progress, cached in memory and
    updated after each successful backend write. */
module LessonProgress {
  import opened Wrappers
  import opened Backend

  /** One cached entry, `{ lessonId, completed, quizScore?, completedAt? }`. */
  datatype Entry = Entry(lessonId: string, completed: bool, quizScore: Option<int>, completedAt: Option<string>)

  /** A `lesson_progress` row; `quiz_score ?? undefined` and `completed_at ?? undefined` keep null as absent. */
  datatype ProgressRow = ProgressRow(lessonId: string, completed: bool, quizScore: Option<int>, completedAt: Option<string>)

  function ToEntry(row: ProgressRow): Entry {
    Entry(row.lessonId, row.completed, row.quizScore, row.completedAt)
  }

  /** Some cached entry is for lesson `id`. */
  predicate HasEntry(entries: seq<Entry>, id: string) {
    exists i :: 0 <= i < |entries| && entries[i].lessonId == id
  }

  lemma HasEntryCons(entries: seq<Entry>, id: string)
    requires entries != []
    ensures HasEntry(entries, id) <==> entries[0].lessonId == id || HasEntry(entries[1..], id)
  {
    if HasEntry(entries[1..], id) {
      var i :| 0 <= i < |entries| - 1 && entries[1..][i].lessonId == id;
      assert entries[i + 1].lessonId == id;
    }
    if HasEntry(entries, id) && entries[0].lessonId != id {
      var i :| 0 <= i < |entries| && entries[i].lessonId == id;
      assert entries[1..][i - 1].lessonId == id;
    }
  }

  /** No two cached entries are for the same lesson. */
  ghost predicate UniqueKeys(entries: seq<Entry>) {
    forall i, j :: 0 <= i < j < |entries| ==> entries[i].lessonId != entries[j].lessonId
  }

  /** The entries for lesson `id`, in cache order. */
  function EntriesFor(entries: seq<Entry>, id: string): (r: seq<Entry>)
    ensures forall e :: e in r <==> e in entries && e.lessonId == id
    ensures |r| == 0 <==> !HasEntry(entries, id)
  {
    if entries == [] then []
    else
      var rest := EntriesFor(entries[1..], id);
      HasEntryCons(entries, id);
      if entries[0].lessonId == id then [entries[0]] + rest else rest
  }

  /** `isLessonCompleted`: some entry for the lesson says completed. */
  predicate Completed(entries: seq<Entry>, id: string): (done: bool)
    ensures done <==> exists e :: e in entries && e.lessonId == id && e.completed
    ensures done ==> HasEntry(entries, id)
  {
    exists i :: 0 <= i < |entries| && entries[i].lessonId == id && entries[i].completed
  }

  /** `getQuizScore`: the quiz score of the first entry for the lesson, absent without one. */
  function QuizScoreOf(entries: seq<Entry>, id: string): (r: Option<int>)
    ensures !HasEntry(entries, id) ==> r.None?
    ensures HasEntry(entries, id) ==> exists i :: (0 <= i < |entries| && entries[i].lessonId == id &&
      r == entries[i].quizScore && forall j :: 0 <= j < i ==> entries[j].lessonId != id)
  {
    if entries == [] then None
    else if entries[0].lessonId == id then entries[0].quizScore
    else
      var r := QuizScoreOf(entries[1..], id);
      if HasEntry(entries, id) then
        ghost var k :| 0 <= k < |entries| && entries[k].lessonId == id;
        assert entries[1..][k - 1].lessonId == id;
        ghost var i :| 0 <= i < |entries| - 1 && entries[1..][i].lessonId == id &&
          r == entries[1..][i].quizScore && forall j :: 0 <= j < i ==> entries[1..][j].lessonId != id;
        assert entries[i + 1].lessonId == id && forall j :: 0 <= j < i + 1 ==> entries[j].lessonId != id;
        r
      else r
  }

  /** `prev.map((p) => p.lessonId === id ? f(p) : p)`. */
  function UpdateWhere(entries: seq<Entry>, id: string, f: Entry -> Entry): (r: seq<Entry>)
    ensures |r| == |entries|
    ensures forall i :: 0 <= i < |r| ==> r[i] == if entries[i].lessonId == id then f(entries[i]) else entries[i]
  {
    seq(|entries|, i requires 0 <= i < |entries| => if entries[i].lessonId == id then f(entries[i]) else entries[i])
  }

  /** The cache after a successful `markAsCompleted(id)` at time `now`: existing entries for the
      lesson become completed with the new time (their quiz score kept); without one, a single
      entry is appended. */
  function MarkCompleted(entries: seq<Entry>, id: string, now: string): seq<Entry> {
    if HasEntry(entries, id) then UpdateWhere(entries, id, (p: Entry) => p.(completed := true, completedAt := Some(now)))
    else entries + [Entry(id, true, None, Some(now))]
  }

  /** The cache after a successful `saveQuizScore(id, score)` at time `now`: as for
      `MarkCompleted`, but the quiz score is overwritten. */
  function RecordScore(entries: seq<Entry>, id: string, score: int, now: string): seq<Entry> {
    if HasEntry(entries, id) then UpdateWhere(entries, id, (p: Entry) => p.(completed := true, quizScore := Some(score), completedAt := Some(now)))
    else entries + [Entry(id, true, Some(score), Some(now))]
  }

  class ProgressCache {
    var progress: seq<Entry>
    var isLoading: bool

    constructor ()
      ensures progress == [] && isLoading
    {
      progress := [];
      isLoading := true;
    }

    /** `fetchProgress`: without a user the cache is emptied; a failed read leaves it as it was;
        a successful read replaces it. Loading ends in every case. */
    method FetchProgress(signedIn: bool, reply: Reply<seq<ProgressRow>>)
      modifies this
      ensures !isLoading
      ensures !signedIn ==> progress == []
      ensures signedIn && (reply.error.Some? || reply.data.None?) ==> progress == old(progress)
      ensures signedIn && reply.error.None? && reply.data.Some? ==>
        |progress| == |reply.data.value| &&
        forall i :: 0 <= i < |progress| ==> progress[i] == ToEntry(reply.data.value[i])
    {
      if !signedIn {
        progress := [];
        isLoading := false;
        return;
      }
      if reply.error.None? && reply.data.Some? {
        var rows := reply.data.value;
        progress := seq(|rows|, i requires 0 <= i < |rows| => ToEntry(rows[i]));
      }
      isLoading := false;
    }

    /** `markAsCompleted`: succeeds exactly when a user is signed in and the upsert succeeds,
        and only then changes the cache. */
    method MarkAsCompleted(lessonId: string, signedIn: bool, upsertOk: bool, now: string) returns (ok: bool)
      modifies this`progress
      ensures ok == (signedIn && upsertOk)
      ensures progress == if ok then MarkCompleted(old(progress), lessonId, now) else old(progress)
    {
      if !signedIn {
        return false;
      }
      if !upsertOk {
        return false;
      }
      progress := MarkCompleted(progress, lessonId, now);
      return true;
    }

    /** `saveQuizScore`: succeeds exactly when a user is signed in and the upsert succeeds, and
        only then changes the cache. */
    method SaveQuizScore(lessonId: string, score: int, signedIn: bool, upsertOk: bool, now: string) returns (ok: bool)
      modifies this`progress
      ensures ok == (signedIn && upsertOk)
      ensures progress == if ok then RecordScore(old(progress), lessonId, score, now) else old(progress)
    {
      if !signedIn {
        return false;
      }
      if !upsertOk {
        return false;
      }
      progress := RecordScore(progress, lessonId, score, now);
      return true;
    }

    /** `isLessonCompleted`. */
    predicate IsLessonCompleted(lessonId: string): (done: bool)
      reads this
      ensures done <==> exists e :: e in progress && e.lessonId == lessonId && e.completed
      ensures !HasEntry(progress, lessonId) ==> !done
    {
      Completed(progress, lessonId)
    }

    /** `getQuizScore`. */
    function GetQuizScore(lessonId: string): (r: Option<int>)
      reads this
      ensures !HasEntry(progress, lessonId) ==> r.None?
      ensures HasEntry(progress, lessonId) ==> exists i :: (0 <= i < |progress| && progress[i].lessonId == lessonId &&
        r == progress[i].quizScore && forall j :: 0 <= j < i ==> progress[j].lessonId != lessonId)
    {
      QuizScoreOf(progress, lessonId)
    }
  }

  /** After `markAsCompleted(id)` the lesson is completed, its quiz score is what it was, and
      every other lesson's entries, completion and score are unchanged. */
  lemma MarkCompletedEffect(entries: seq<Entry>, id: string, now: string, other: string)
    requires other != id
    ensures Completed(MarkCompleted(entries, id, now), id)
    ensures QuizScoreOf(MarkCompleted(entries, id, now), id) == QuizScoreOf(entries, id)
    ensures EntriesFor(MarkCompleted(entries, id, now), other) == EntriesFor(entries, other)
    ensures Completed(MarkCompleted(entries, id, now), other) == Completed(entries, other)
    ensures QuizScoreOf(MarkCompleted(entries, id, now), other) == QuizScoreOf(entries, other)
  {
    var r := MarkCompleted(entries, id, now);
    if HasEntry(entries, id) {
      var i :| 0 <= i < |entries| && entries[i].lessonId == id;
      assert r[i].lessonId == id && r[i].completed;
      UpdatePreserves(entries, id, (p: Entry) => p.(completed := true, completedAt := Some(now)), other);
      UpdateScoreKept(entries, id, now);
    } else {
      assert r[|entries|].lessonId == id && r[|entries|].completed;
      AppendPreserves(entries, Entry(id, true, None, Some(now)), other);
    }
  }

  /** After `saveQuizScore(id, score)` the lesson is completed with that score (the latest call
      wins), and every other lesson's entries, completion and score are unchanged. */
  lemma RecordScoreEffect(entries: seq<Entry>, id: string, score: int, now: string, other: string)
    requires other != id
    ensures Completed(RecordScore(entries, id, score, now), id)
    ensures QuizScoreOf(RecordScore(entries, id, score, now), id) == Some(score)
    ensures EntriesFor(RecordScore(entries, id, score, now), other) == EntriesFor(entries, other)
    ensures Completed(RecordScore(entries, id, score, now), other) == Completed(entries, other)
    ensures QuizScoreOf(RecordScore(entries, id, score, now), other) == QuizScoreOf(entries, other)
  {
    var r := RecordScore(entries, id, score, now);
    var f := (p: Entry) => p.(completed := true, quizScore := Some(score), completedAt := Some(now));
    if HasEntry(entries, id) {
      var i :| 0 <= i < |entries| && entries[i].lessonId == id;
      assert r[i].lessonId == id && r[i].completed;
      UpdatePreserves(entries, id, f, other);
      UpdateScoreSet(entries, id, f, Some(score));
    } else {
      assert r[|entries|].lessonId == id && r[|entries|].completed;
      AppendPreserves(entries, Entry(id, true, Some(score), Some(now)), other);
      AppendScore(entries, Entry(id, true, Some(score), Some(now)));
    }
  }

  lemma UpdatePreserves(entries: seq<Entry>, id: string, f: Entry -> Entry, other: string)
    requires other != id
    requires forall p :: f(p).lessonId == p.lessonId
    ensures EntriesFor(UpdateWhere(entries, id, f), other) == EntriesFor(entries, other)
    ensures Completed(UpdateWhere(entries, id, f), other) == Completed(entries, other)
    ensures QuizScoreOf(UpdateWhere(entries, id, f), other) == QuizScoreOf(entries, other)
  {
    UpdateKeepsEntriesFor(entries, id, f, other);
    UpdateKeepsScore(entries, id, f, other);
    UpdateKeepsCompleted(entries, id, f, other);
  }

  lemma UpdateKeepsCompleted(entries: seq<Entry>, id: string, f: Entry -> Entry, other: string)
    requires other != id
    requires forall p :: f(p).lessonId == p.lessonId
    ensures Completed(UpdateWhere(entries, id, f), other) == Completed(entries, other)
  {
    var r := UpdateWhere(entries, id, f);
    if Completed(entries, other) {
      var i :| 0 <= i < |entries| && entries[i].lessonId == other && entries[i].completed;
      assert r[i] == entries[i];
    }
    if Completed(r, other) {
      var i :| 0 <= i < |r| && r[i].lessonId == other && r[i].completed;
      assert r[i].lessonId == entries[i].lessonId;
      assert r[i] == entries[i];
    }
  }

  lemma {:induction false} UpdateKeepsEntriesFor(entries: seq<Entry>, id: string, f: Entry -> Entry, other: string)
    requires other != id
    requires forall p :: f(p).lessonId == p.lessonId
    ensures EntriesFor(UpdateWhere(entries, id, f), other) == EntriesFor(entries, other)
  {
    if entries != [] {
      UpdateKeepsEntriesFor(entries[1..], id, f, other);
      assert UpdateWhere(entries[1..], id, f) == UpdateWhere(entries, id, f)[1..];
    }
  }

  lemma {:induction false} UpdateKeepsScore(entries: seq<Entry>, id: string, f: Entry -> Entry, other: string)
    requires other != id
    requires forall p :: f(p).lessonId == p.lessonId
    ensures QuizScoreOf(UpdateWhere(entries, id, f), other) == QuizScoreOf(entries, other)
  {
    if entries != [] {
      UpdateKeepsScore(entries[1..], id, f, other);
      assert UpdateWhere(entries[1..], id, f) == UpdateWhere(entries, id, f)[1..];
    }
  }

  lemma {:induction false} UpdateScoreKept(entries: seq<Entry>, id: string, now: string)
    ensures QuizScoreOf(UpdateWhere(entries, id, (p: Entry) => p.(completed := true, completedAt := Some(now))), id) == QuizScoreOf(entries, id)
  {
    var f := (p: Entry) => p.(completed := true, completedAt := Some(now));
    if entries != [] {
      UpdateScoreKept(entries[1..], id, now);
      assert UpdateWhere(entries[1..], id, f) == UpdateWhere(entries, id, f)[1..];
    }
  }

  lemma {:induction false} UpdateScoreSet(entries: seq<Entry>, id: string, f: Entry -> Entry, score: Option<int>)
    requires HasEntry(entries, id)
    requires forall p :: f(p).lessonId == p.lessonId && f(p).quizScore == score
    ensures QuizScoreOf(UpdateWhere(entries, id, f), id) == score
  {
    var r := UpdateWhere(entries, id, f);
    if entries[0].lessonId != id {
      HasEntryCons(entries, id);
      UpdateScoreSet(entries[1..], id, f, score);
      assert UpdateWhere(entries[1..], id, f) == r[1..];
      assert r[0].lessonId != id;
    }
  }


  lemma AppendPreserves(entries: seq<Entry>, e: Entry, other: string)
    requires e.lessonId != other
    ensures EntriesFor(entries + [e], other) == EntriesFor(entries, other)
    ensures Completed(entries + [e], other) == Completed(entries, other)
    ensures QuizScoreOf(entries + [e], other) == QuizScoreOf(entries, other)
  {
    AppendKeepsEntriesFor(entries, e, other);
    AppendKeepsScore(entries, e, other);
    AppendKeepsCompleted(entries, e, other);
  }

  lemma AppendKeepsCompleted(entries: seq<Entry>, e: Entry, other: string)
    requires e.lessonId != other
    ensures Completed(entries + [e], other) == Completed(entries, other)
  {
    if Completed(entries + [e], other) {
      var i :| 0 <= i < |entries| + 1 && (entries + [e])[i].lessonId == other && (entries + [e])[i].completed;
      assert entries[i].lessonId == other;
    }
  }

  lemma {:induction false} AppendKeepsEntriesFor(entries: seq<Entry>, e: Entry, other: string)
    requires e.lessonId != other
    ensures EntriesFor(entries + [e], other) == EntriesFor(entries, other)
  {
    if entries == [] {
      assert [e][1..] == [];
    } else {
      AppendKeepsEntriesFor(entries[1..], e, other);
      assert (entries + [e])[0] == entries[0];
      assert (entries + [e])[1..] == entries[1..] + [e];
    }
  }

  lemma {:induction false} AppendKeepsScore(entries: seq<Entry>, e: Entry, other: string)
    requires e.lessonId != other
    ensures QuizScoreOf(entries + [e], other) == QuizScoreOf(entries, other)
  {
    if entries == [] {
      assert [e][1..] == [];
    } else {
      AppendKeepsScore(entries[1..], e, other);
      assert (entries + [e])[1..] == entries[1..] + [e];
    }
  }

  lemma {:induction false} AppendScore(entries: seq<Entry>, e: Entry)
    requires !HasEntry(entries, e.lessonId)
    ensures QuizScoreOf(entries + [e], e.lessonId) == e.quizScore
  {
    if entries == [] {
    } else {
      assert entries[0].lessonId != e.lessonId;
      HasEntryCons(entries, e.lessonId);
      AppendScore(entries[1..], e);
      assert (entries + [e])[1..] == entries[1..] + [e];
    }
  }

  /** An existing entry is updated in place (same length); otherwise exactly one entry is
      appended. Either way distinct lesson ids stay distinct, so repeating the call never makes
      a second entry for the lesson. */
  lemma MarkCompletedShape(entries: seq<Entry>, id: string, now: string)
    ensures HasEntry(entries, id) ==> |MarkCompleted(entries, id, now)| == |entries|
    ensures !HasEntry(entries, id) ==> |MarkCompleted(entries, id, now)| == |entries| + 1 && MarkCompleted(entries, id, now)[..|entries|] == entries
    ensures UniqueKeys(entries) ==> UniqueKeys(MarkCompleted(entries, id, now))
    ensures |EntriesFor(MarkCompleted(entries, id, now), id)| == if HasEntry(entries, id) then |EntriesFor(entries, id)| else 1
  {
    var f := (p: Entry) => p.(completed := true, completedAt := Some(now));
    if HasEntry(entries, id) {
      UpdateCount(entries, id, f);
      UpdateKeepsKeys(entries, id, f);
    } else {
      var e := Entry(id, true, None, Some(now));
      AppendCount(entries, e);
    }
  }

  /** The same for `saveQuizScore`. */
  lemma RecordScoreShape(entries: seq<Entry>, id: string, score: int, now: string)
    ensures HasEntry(entries, id) ==> |RecordScore(entries, id, score, now)| == |entries|
    ensures !HasEntry(entries, id) ==> |RecordScore(entries, id, score, now)| == |entries| + 1 && RecordScore(entries, id, score, now)[..|entries|] == entries
    ensures UniqueKeys(entries) ==> UniqueKeys(RecordScore(entries, id, score, now))
    ensures |EntriesFor(RecordScore(entries, id, score, now), id)| == if HasEntry(entries, id) then |EntriesFor(entries, id)| else 1
  {
    var f := (p: Entry) => p.(completed := true, quizScore := Some(score), completedAt := Some(now));
    if HasEntry(entries, id) {
      UpdateCount(entries, id, f);
      UpdateKeepsKeys(entries, id, f);
    } else {
      var e := Entry(id, true, Some(score), Some(now));
      AppendCount(entries, e);
    }
  }

  lemma {:induction false} UpdateCount(entries: seq<Entry>, id: string, f: Entry -> Entry)
    requires forall p :: f(p).lessonId == p.lessonId
    ensures |EntriesFor(UpdateWhere(entries, id, f), id)| == |EntriesFor(entries, id)|
  {
    if entries != [] {
      UpdateCount(entries[1..], id, f);
      assert UpdateWhere(entries[1..], id, f) == UpdateWhere(entries, id, f)[1..];
    }
  }

  lemma UpdateKeepsKeys(entries: seq<Entry>, id: string, f: Entry -> Entry)
    requires forall p :: f(p).lessonId == p.lessonId
    ensures UniqueKeys(entries) ==> UniqueKeys(UpdateWhere(entries, id, f))
  {
    var r := UpdateWhere(entries, id, f);
    assert forall i :: 0 <= i < |r| ==> r[i].lessonId == entries[i].lessonId;
  }

  lemma {:induction false} AppendCount(entries: seq<Entry>, e: Entry)
    requires !HasEntry(entries, e.lessonId)
    ensures |EntriesFor(entries + [e], e.lessonId)| == 1
    ensures UniqueKeys(entries) ==> UniqueKeys(entries + [e])
  {
    if entries == [] {
      assert [e][1..] == [];
    } else {
      HasEntryCons(entries, e.lessonId);
      AppendCount(entries[1..], e);
      assert (entries + [e])[1..] == entries[1..] + [e];
      assert entries[0].lessonId != e.lessonId;
    }
    if UniqueKeys(entries) {
      forall i, j | 0 <= i < j < |entries| + 1 ensures (entries + [e])[i].lessonId != (entries + [e])[j].lessonId {
        if j == |entries| {
          assert entries[i].lessonId != e.lessonId;
        }
      }
    }
  }

  /** Marking twice is marking once with the later time: the second call adds nothing. */
  lemma MarkCompletedIdempotent(entries: seq<Entry>, id: string, t1: string, t2: string)
    ensures MarkCompleted(MarkCompleted(entries, id, t1), id, t2) == MarkCompleted(entries, id, t2)
  {
    var once := MarkCompleted(entries, id, t1);
    if HasEntry(entries, id) {
      var i :| 0 <= i < |entries| && entries[i].lessonId == id;
      assert once[i].lessonId == id;
    } else {
      assert once[|entries|].lessonId == id;
    }
  }

  /** Saving two scores in a row keeps only the later one. */
  lemma RecordScoreLatestWins(entries: seq<Entry>, id: string, s1: int, t1: string, s2: int, t2: string)
    ensures RecordScore(RecordScore(entries, id, s1, t1), id, s2, t2) == RecordScore(entries, id, s2, t2)
  {
    var once := RecordScore(entries, id, s1, t1);
    if HasEntry(entries, id) {
      var i :| 0 <= i < |entries| && entries[i].lessonId == id;
      assert once[i].lessonId == id;
    } else {
      assert once[|entries|].lessonId == id;
    }
  }
}
