/**
  The two counts of `courses_in_progress`. Both read one join: the course's lessons, each beside every
  learner's progress on it, or beside nothing. Tables are lists of rows in any order.
*/
module ProgressCounts {
  import opened Options
  import opened Ordering
  import opened Learning
  import Curriculum
  import NextLesson

  datatype ProgressRow = ProgressRow(user: nat, lesson: nat, completed: bool)
  datatype JoinRow = JoinRow(lesson: nat, progress: Option<ProgressRow>)

  /** `one_progress_row_per_lesson`. */
  predicate OnePerSeat(rows: seq<ProgressRow>) {
    forall i, j :: 0 <= i < j < |rows| ==> rows[i].user != rows[j].user || rows[i].lesson != rows[j].lesson
  }

  function Matching(lesson: nat, rows: seq<ProgressRow>): seq<JoinRow> {
    if rows == [] then [] else
      var n := |rows| - 1;
      Matching(lesson, rows[..n]) + (if rows[n].lesson == lesson then [JoinRow(lesson, Some(rows[n]))] else [])
  }

  /** LEFT JOIN: a lesson nobody has touched still gives one row. */
  function JoinLesson(lesson: nat, rows: seq<ProgressRow>): seq<JoinRow> {
    var matching := Matching(lesson, rows);
    if matching == [] then [JoinRow(lesson, None)] else matching
  }

  function Join(lessons: seq<nat>, rows: seq<ProgressRow>): seq<JoinRow> {
    if lessons == [] then [] else
      var n := |lessons| - 1;
      Join(lessons[..n], rows) + JoinLesson(lessons[n], rows)
  }

  /** The aggregate's FILTER: this learner's completed progress. */
  predicate Mine(row: JoinRow, user: nat) {
    row.progress.Some? && row.progress.value.user == user && row.progress.value.completed
  }

  // ----- the four aggregates -----

  function DistinctLessons(rows: seq<JoinRow>): set<nat> {
    set i | 0 <= i < |rows| :: rows[i].lesson
  }

  function DistinctMine(rows: seq<JoinRow>, user: nat): set<nat> {
    set i | 0 <= i < |rows| && Mine(rows[i], user) :: rows[i].lesson
  }

  function CountMine(rows: seq<JoinRow>, user: nat): nat {
    if rows == [] then 0 else
      var n := |rows| - 1;
      CountMine(rows[..n], user) + (if Mine(rows[n], user) then 1 else 0)
  }

  /** `lesson_count` and `completed_lesson_count`. */
  function LessonCount(lessons: seq<nat>, rows: seq<ProgressRow>): nat {
    |DistinctLessons(Join(lessons, rows))|
  }

  function CompletedLessonCount(lessons: seq<nat>, rows: seq<ProgressRow>, user: nat): nat {
    |DistinctMine(Join(lessons, rows), user)|
  }

  // ----- what the join holds -----

  lemma {:induction false} MatchingHolds(lesson: nat, rows: seq<ProgressRow>)
    ensures forall i :: 0 <= i < |Matching(lesson, rows)| ==>
              var row := Matching(lesson, rows)[i];
              row.lesson == lesson && row.progress.Some? && row.progress.value in rows
              && row.progress.value.lesson == lesson
    ensures forall k :: 0 <= k < |rows| && rows[k].lesson == lesson ==>
              JoinRow(lesson, Some(rows[k])) in Matching(lesson, rows)
  {
    if rows != [] {
      var n := |rows| - 1;
      MatchingHolds(lesson, rows[..n]);
      assert rows == rows[..n] + [rows[n]];
      forall k | 0 <= k < |rows| && rows[k].lesson == lesson
        ensures JoinRow(lesson, Some(rows[k])) in Matching(lesson, rows)
      {
        if k < n {
          assert rows[..n][k] == rows[k];
        }
      }
    }
  }

  lemma JoinLessonHolds(lesson: nat, rows: seq<ProgressRow>)
    ensures JoinLesson(lesson, rows) != []
    ensures forall i :: 0 <= i < |JoinLesson(lesson, rows)| ==> JoinLesson(lesson, rows)[i].lesson == lesson
  {
    MatchingHolds(lesson, rows);
  }

  lemma DistinctAppend(a: seq<JoinRow>, b: seq<JoinRow>, user: nat)
    ensures DistinctLessons(a + b) == DistinctLessons(a) + DistinctLessons(b)
    ensures DistinctMine(a + b, user) == DistinctMine(a, user) + DistinctMine(b, user)
  {
    var all := a + b;
    assert forall i :: 0 <= i < |a| ==> all[i] == a[i];
    assert forall i :: 0 <= i < |b| ==> all[|a| + i] == b[i];
    assert forall i :: |a| <= i < |all| ==> all[i] == b[i - |a|];
    forall l
      ensures l in DistinctLessons(all) <==> l in DistinctLessons(a) + DistinctLessons(b)
      ensures l in DistinctMine(all, user) <==> l in DistinctMine(a, user) + DistinctMine(b, user)
    {
    }
  }

  ghost predicate CompletedBy(rows: seq<ProgressRow>, user: nat, lesson: nat) {
    ProgressRow(user, lesson, true) in rows
  }

  lemma DistinctOfOneLesson(lesson: nat, rows: seq<ProgressRow>, user: nat)
    ensures DistinctLessons(JoinLesson(lesson, rows)) == {lesson}
    ensures DistinctMine(JoinLesson(lesson, rows), user) == if CompletedBy(rows, user, lesson) then {lesson} else {}
  {
    MatchingHolds(lesson, rows);
    JoinLessonHolds(lesson, rows);
    var joined := JoinLesson(lesson, rows);
    assert joined[0].lesson in DistinctLessons(joined);
    var mine := JoinRow(lesson, Some(ProgressRow(user, lesson, true)));
    if CompletedBy(rows, user, lesson) {
      var k :| 0 <= k < |rows| && rows[k] == ProgressRow(user, lesson, true);
      assert mine in Matching(lesson, rows);
      var i :| 0 <= i < |joined| && joined[i] == mine;
      assert Mine(joined[i], user);
    } else {
      forall i | 0 <= i < |joined|
        ensures !Mine(joined[i], user)
      {
        assert joined[i].progress.Some? ==> joined[i].progress.value in rows;
        assert joined[i].progress.Some? ==> joined[i].progress.value.lesson == lesson;
      }
    }
  }

  /** Whatever other learners did, the join's distinct lessons are the lessons, and the filtered ones the learner's. */
  lemma {:induction false} DistinctOfJoin(lessons: seq<nat>, rows: seq<ProgressRow>, user: nat)
    ensures DistinctLessons(Join(lessons, rows)) == Ids(lessons)
    ensures DistinctMine(Join(lessons, rows), user) == set l | l in lessons && CompletedBy(rows, user, l)
  {
    hide JoinLesson, DistinctLessons, DistinctMine;
    if lessons == [] {
      NothingDistinct(user);
    } else {
      var n := |lessons| - 1;
      DistinctOfJoin(lessons[..n], rows, user);
      DistinctOfOneLesson(lessons[n], rows, user);
      DistinctAppend(Join(lessons[..n], rows), JoinLesson(lessons[n], rows), user);
      assert lessons == lessons[..n] + [lessons[n]];
    }
  }

  lemma NothingDistinct(user: nat)
    ensures DistinctLessons([]) == {} && DistinctMine([], user) == {}
  {
  }

  lemma {:induction false} DistinctSetSize(lessons: seq<nat>)
    requires Distinct(lessons)
    ensures |Ids(lessons)| == |lessons|
  {
    if lessons != [] {
      var n := |lessons| - 1;
      DistinctSetSize(lessons[..n]);
      assert lessons == lessons[..n] + [lessons[n]];
      assert Ids(lessons) == Ids(lessons[..n]) + {lessons[n]};
      assert forall i :: 0 <= i < n ==> lessons[..n][i] == lessons[i];
      assert lessons[n] !in Ids(lessons[..n]);
    }
  }

  function Ids(lessons: seq<nat>): set<nat> {
    set l | l in lessons
  }

  /** `lesson_count` is the plain number of lessons, however many learners share the course. */
  lemma LessonCountIsPlain(lessons: seq<nat>, rows: seq<ProgressRow>, user: nat)
    requires Distinct(lessons)
    ensures LessonCount(lessons, rows) == |lessons|
  {
    DistinctOfJoin(lessons, rows, user);
    DistinctSetSize(lessons);
  }

  // ----- why `distinct` is needed on one count and not on the other -----

  function RowsPerLesson(lesson: nat, rows: seq<ProgressRow>): nat {
    |Matching(lesson, rows)|
  }

  lemma {:induction false} JoinIsAtLeastTheLessons(lessons: seq<nat>, rows: seq<ProgressRow>)
    ensures |Join(lessons, rows)| >= |lessons|
    ensures |Join(lessons, rows)| == |lessons| <==>
            forall i :: 0 <= i < |lessons| ==> RowsPerLesson(lessons[i], rows) <= 1
  {
    hide Matching;
    if lessons != [] {
      var n := |lessons| - 1;
      JoinIsAtLeastTheLessons(lessons[..n], rows);
      assert forall i :: 0 <= i < n ==> lessons[..n][i] == lessons[i];
    }
  }

  /** A count without `distinct` is right exactly while no lesson has two learners. */
  lemma PlainLessonCountIsRightExactly(lessons: seq<nat>, rows: seq<ProgressRow>, user: nat)
    requires Distinct(lessons)
    ensures |Join(lessons, rows)| == LessonCount(lessons, rows) <==>
            forall i :: 0 <= i < |lessons| ==> RowsPerLesson(lessons[i], rows) <= 1
  {
    hide LessonCount, RowsPerLesson, Join;
    LessonCountIsPlain(lessons, rows, user);
    JoinIsAtLeastTheLessons(lessons, rows);
  }

  lemma {:induction false} CountAppend(a: seq<JoinRow>, b: seq<JoinRow>, user: nat)
    ensures CountMine(a + b, user) == CountMine(a, user) + CountMine(b, user)
  {
    hide Mine;
    if b == [] {
      assert a + b == a;
    } else {
      var n := |b| - 1;
      assert (a + b)[..|a| + n] == a + b[..n];
      CountAppend(a, b[..n], user);
    }
  }

  lemma CountOne(row: JoinRow, user: nat)
    ensures CountMine([row], user) == if Mine(row, user) then 1 else 0
  {
    assert [row][..0] == [];
  }

  lemma {:induction false} MineOncePerLesson(lesson: nat, rows: seq<ProgressRow>, user: nat)
    requires OnePerSeat(rows)
    ensures CountMine(Matching(lesson, rows), user) == if CompletedBy(rows, user, lesson) then 1 else 0
  {
    if rows != [] {
      var n := |rows| - 1;
      var last := rows[n];
      MineOncePerLesson(lesson, rows[..n], user);
      assert rows == rows[..n] + [last];
      CountOne(JoinRow(lesson, Some(last)), user);
      CountAppend(Matching(lesson, rows[..n]), [JoinRow(lesson, Some(last))], user);
      CountAppend(Matching(lesson, rows[..n]), [], user);
      if last == ProgressRow(user, lesson, true) {
        forall k | 0 <= k < n
          ensures rows[..n][k] != last
        {
          assert rows[k].user != last.user || rows[k].lesson != last.lesson;
        }
      }
    }
  }

  lemma CountMineInLesson(lesson: nat, rows: seq<ProgressRow>, user: nat)
    requires OnePerSeat(rows)
    ensures CountMine(JoinLesson(lesson, rows), user) == if CompletedBy(rows, user, lesson) then 1 else 0
  {
    hide Matching;
    MineOncePerLesson(lesson, rows, user);
    CountOne(JoinRow(lesson, None), user);
  }

  /** On the filtered count `distinct` changes nothing, because a learner has one row per lesson. */
  lemma {:induction false} FilteredCountNeedsNoDistinct(lessons: seq<nat>, rows: seq<ProgressRow>, user: nat)
    requires Distinct(lessons) && OnePerSeat(rows)
    ensures CountMine(Join(lessons, rows), user) == CompletedLessonCount(lessons, rows, user)
  {
    hide JoinLesson, DistinctMine, DistinctLessons, CompletedBy;
    DistinctOfJoin(lessons, rows, user);
    if lessons == [] {
      NothingDistinct(user);
    } else {
      var n := |lessons| - 1;
      FilteredCountNeedsNoDistinct(lessons[..n], rows, user);
      DistinctOfJoin(lessons[..n], rows, user);
      CountMineInLesson(lessons[n], rows, user);
      CountAppend(Join(lessons[..n], rows), JoinLesson(lessons[n], rows), user);
      OneMoreLesson(lessons, rows, user);
    }
  }

  lemma OneMoreLesson(lessons: seq<nat>, rows: seq<ProgressRow>, user: nat)
    requires Distinct(lessons) && lessons != []
    ensures |set l | l in lessons && CompletedBy(rows, user, l)|
         == |set l | l in lessons[..|lessons| - 1] && CompletedBy(rows, user, l)|
            + (if CompletedBy(rows, user, lessons[|lessons| - 1]) then 1 else 0)
  {
    hide CompletedBy;
    var n := |lessons| - 1;
    assert lessons == lessons[..n] + [lessons[n]];
    var before := set l | l in lessons[..n] && CompletedBy(rows, user, l);
    var all := set l | l in lessons && CompletedBy(rows, user, l);
    if CompletedBy(rows, user, lessons[n]) {
      assert all == before + {lessons[n]};
    } else {
      assert all == before;
    }
  }

  // ----- the counts against the rules of completion -----

  /** The tables list the school: the course's lessons once each, and every progress row once. */
  ghost predicate Represents(db: School, course: nat, lessons: seq<nat>, rows: seq<ProgressRow>) {
    && Distinct(lessons) && (forall l :: l in lessons <==> l in Curriculum.LessonsOf(db.catalog, course))
    && OnePerSeat(rows)
    && (forall u, l :: CompletedBy(rows, u, l) <==> IsFinished(db.progress, u, l))
  }

  /**
    What "my courses" shows agrees with what completes a course: the counts are the simple ones, and for a
    course with lessons they are equal exactly when it is complete, which is when nothing is next.
  */
  lemma CountsAgreeWithCompletion(db: School, user: nat, course: nat, lessons: seq<nat>, rows: seq<ProgressRow>)
    requires Sound(db) && Represents(db, course, lessons, rows)
    ensures LessonCount(lessons, rows) == |Curriculum.LessonsOf(db.catalog, course)|
    ensures CompletedLessonCount(lessons, rows, user) == |FinishedIn(db, user, course)|
    ensures lessons != [] ==>
              (CompletedLessonCount(lessons, rows, user) == LessonCount(lessons, rows)
               <==> CourseIsComplete(db, user, course))
    ensures lessons != [] ==> (CourseIsComplete(db, user, course) <==> NextLesson.Todo(db, user, course) == [])
  {
    hide Join, DistinctLessons, DistinctMine, NextLesson.Todo, Sound, CompletedBy;
    DistinctOfJoin(lessons, rows, user);
    var ids, finished := Curriculum.LessonsOf(db.catalog, course), FinishedIn(db, user, course);
    assert Ids(lessons) == ids;
    assert (set l | l in lessons && CompletedBy(rows, user, l)) == finished;
    SubsetOfEqualSize(finished, ids);
    NextLesson.NoNextMeansComplete(db, user, course);
    if lessons != [] {
      assert lessons[0] in lessons;
      assert lessons[0] in ids;
    }
  }
}
