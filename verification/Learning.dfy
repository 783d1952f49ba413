/**
  Progress, enrolment and course completion: the services that record what a learner watched, and the rule
  that a course completes the moment its last lesson does. Each service call is one atomic step.
*/
module Learning {
  import opened Options
  import opened Heartbeats
  import Curriculum

  /** The keys of the two tables: unique per learner and lesson, and per learner and course. */
  datatype Seat = Seat(user: nat, lesson: nat)
  datatype Taking = Taking(user: nat, course: nat)
  datatype Enrollment = Enrollment(lastLesson: nat, completedAt: Option<Time>)

  datatype School = School(
    catalog: Curriculum.Catalog,
    progress: map<Seat, Progress>,
    enrollments: map<Taking, Enrollment>
  )

  datatype Outcome = Saved | EntitlementDenied | NoSuchLesson | CatalogAnswered(answer: Curriculum.Outcome)

  // ----- what the services compute -----

  predicate IsFinished(progress: map<Seat, Progress>, user: nat, lesson: nat) {
    Seat(user, lesson) in progress && progress[Seat(user, lesson)].completedAt.Some?
  }

  function FinishedIn(db: School, user: nat, course: nat): set<nat> {
    set l | l in Curriculum.LessonsOf(db.catalog, course) && IsFinished(db.progress, user, l)
  }

  /** `course_is_complete`: two counts, and no course without lessons. */
  predicate CourseIsComplete(db: School, user: nat, course: nat) {
    var total := |Curriculum.LessonsOf(db.catalog, course)|;
    total != 0 && |FinishedIn(db, user, course)| >= total
  }

  /** `_bookmark`: enrols on first contact, moves the bookmark, and never touches the completion date. */
  function Bookmark(db: School, user: nat, lesson: nat): School
    requires lesson in db.catalog.lessons
  {
    var taking := Taking(user, db.catalog.lessons[lesson].course);
    if taking !in db.enrollments then db.(enrollments := db.enrollments[taking := Enrollment(lesson, None)])
    else if db.enrollments[taking].lastLesson == lesson then db
    else db.(enrollments := db.enrollments[taking := db.enrollments[taking].(lastLesson := lesson)])
  }

  /** `_complete_course_if_finished`. */
  function CompleteCourse(db: School, user: nat, course: nat, now: Time): School
    requires Taking(user, course) in db.enrollments
  {
    var taking := Taking(user, course);
    if db.enrollments[taking].completedAt.Some? || !CourseIsComplete(db, user, course) then db
    else db.(enrollments := db.enrollments[taking := db.enrollments[taking].(completedAt := Some(now))])
  }

  function RowOf(db: School, user: nat, lesson: nat): Progress {
    if Seat(user, lesson) in db.progress then db.progress[Seat(user, lesson)] else FRESH
  }

  /** Both services after the row is computed: save it, bookmark, and check the course on a completion. */
  function Save(db: School, user: nat, lesson: nat, row: Progress, now: Time): School
    requires lesson in db.catalog.lessons
  {
    var justFinished := RowOf(db, user, lesson).completedAt.None? && row.completedAt.Some?;
    var marked := Bookmark(db.(progress := db.progress[Seat(user, lesson) := row]), user, lesson);
    if justFinished then CompleteCourse(marked, user, db.catalog.lessons[lesson].course, now) else marked
  }

  function MarkedRow(row: Progress, now: Time): Progress {
    if row.completedAt.None? then row.(completedAt := Some(now)) else row
  }

  function RecordProgress(db: School, user: nat, lesson: nat, entitled: bool, duration: Option<nat>, beat: Beat,
                          s: Settings): (School, Outcome)
  {
    if lesson !in db.catalog.lessons then (db, NoSuchLesson)
    else if !entitled then (db, EntitlementDenied)
    else (Save(db, user, lesson, Fold(RowOf(db, user, lesson), beat, duration, s), beat.now), Saved)
  }

  function MarkComplete(db: School, user: nat, lesson: nat, entitled: bool, now: Time): (School, Outcome) {
    if lesson !in db.catalog.lessons then (db, NoSuchLesson)
    else if !entitled then (db, EntitlementDenied)
    else (Save(db, user, lesson, MarkedRow(RowOf(db, user, lesson), now), now), Saved)
  }

  datatype Op =
    | ProgressOp(user: nat, lesson: nat, entitled: bool, duration: Option<nat>, beat: Beat)
    | MarkOp(user: nat, lesson: nat, entitled: bool, now: Time)
    | CatalogOp(write: Curriculum.Op)

  function Step(db: School, op: Op, s: Settings): (School, Outcome) {
    match op
    case ProgressOp(user, lesson, entitled, duration, beat) =>
      RecordProgress(db, user, lesson, entitled, duration, beat, s)
    case MarkOp(user, lesson, entitled, now) => MarkComplete(db, user, lesson, entitled, now)
    case CatalogOp(write) =>
      var (catalog, answer) := Curriculum.Step(db.catalog, write);
      (db.(catalog := catalog), CatalogAnswered(answer))
  }

  const EMPTY := School(Curriculum.Catalog(map[], map[]), map[], map[])

  function Run(ops: seq<Op>, s: Settings): School {
    if ops == [] then EMPTY else Step(Run(ops[..|ops| - 1], s), ops[|ops| - 1], s).0
  }

  // ----- the services, writing in place -----

  class Tables {
    var catalog: Curriculum.Catalog
    var progress: map<Seat, Progress>
    var enrollments: map<Taking, Enrollment>

    function View(): School
      reads this
    {
      School(catalog, progress, enrollments)
    }

    method BookmarkLesson(user: nat, lesson: nat)
      requires lesson in catalog.lessons
      modifies this`enrollments
      ensures View() == Bookmark(old(View()), user, lesson)
    {
      var taking := Taking(user, catalog.lessons[lesson].course);
      if taking !in enrollments {
        enrollments := enrollments[taking := Enrollment(lesson, None)];
        return;
      }
      if enrollments[taking].lastLesson == lesson {
        return;
      }
      enrollments := enrollments[taking := enrollments[taking].(lastLesson := lesson)];
    }

    method CompleteCourseIfFinished(user: nat, course: nat, now: Time)
      requires Taking(user, course) in enrollments
      modifies this`enrollments
      ensures View() == CompleteCourse(old(View()), user, course, now)
    {
      var taking := Taking(user, course);
      if enrollments[taking].completedAt.Some? {
        return;
      }
      if !CourseIsComplete(View(), user, course) {
        return;
      }
      enrollments := enrollments[taking := enrollments[taking].(completedAt := Some(now))];
    }

    method RecordHeartbeat(user: nat, lesson: nat, entitled: bool, duration: Option<nat>, beat: Beat, s: Settings)
      returns (outcome: Outcome)
      modifies this`progress, this`enrollments
      ensures (View(), outcome) == RecordProgress(old(View()), user, lesson, entitled, duration, beat, s)
    {
      hide IsComplete, CourseIsComplete;
      if lesson !in catalog.lessons {
        return NoSuchLesson;
      }
      if !entitled {
        return EntitlementDenied;
      }
      var row := RowOf(View(), user, lesson);
      var delta := Max(0, Min(beat.delta, s.cap));
      row := row.(last := Max(0, beat.position));
      row := row.(furthest := Max(row.furthest, row.last));
      row := row.(watched := row.watched + delta);
      if duration.Some? && duration.value != 0 {
        row := row.(watched := Min(row.watched, duration.value));
      }
      var justFinished := false;
      if row.completedAt.None? && IsComplete(row.watched, duration, s) {
        row := row.(completedAt := Some(beat.now));
        justFinished := true;
      }
      progress := progress[Seat(user, lesson) := row];
      BookmarkLesson(user, lesson);
      if justFinished {
        CompleteCourseIfFinished(user, catalog.lessons[lesson].course, beat.now);
      }
      outcome := Saved;
    }

    method MarkLessonComplete(user: nat, lesson: nat, entitled: bool, now: Time) returns (outcome: Outcome)
      modifies this`progress, this`enrollments
      ensures (View(), outcome) == MarkComplete(old(View()), user, lesson, entitled, now)
    {
      hide CourseIsComplete;
      if lesson !in catalog.lessons {
        return NoSuchLesson;
      }
      if !entitled {
        return EntitlementDenied;
      }
      var row := RowOf(View(), user, lesson);
      var justFinished := row.completedAt.None?;
      if justFinished {
        row := row.(completedAt := Some(now));
      }
      progress := progress[Seat(user, lesson) := row];
      BookmarkLesson(user, lesson);
      if justFinished {
        CompleteCourseIfFinished(user, catalog.lessons[lesson].course, now);
      }
      outcome := Saved;
    }
  }

  // ----- the counts mean "every lesson" -----

  lemma SubsetOfEqualSize(a: set<nat>, b: set<nat>)
    requires a <= b
    ensures |a| <= |b| && (|a| == |b| <==> a == b)
  {
    assert b == a + (b - a);
    assert |b| == |a| + |b - a|;
  }

  predicate AllFinished(db: School, user: nat, course: nat) {
    forall l :: l in Curriculum.LessonsOf(db.catalog, course) ==> IsFinished(db.progress, user, l)
  }

  lemma CompleteMeansEveryLesson(db: School, user: nat, course: nat)
    ensures CourseIsComplete(db, user, course) <==>
            Curriculum.LessonsOf(db.catalog, course) != {} && AllFinished(db, user, course)
  {
    SubsetOfEqualSize(FinishedIn(db, user, course), Curriculum.LessonsOf(db.catalog, course));
  }

  // ----- the invariant -----

  ghost predicate SeatEnrolled(db: School, seat: Seat) {
    && seat.lesson in db.catalog.lessons
    && Taking(seat.user, db.catalog.lessons[seat.lesson].course) in db.enrollments
  }

  ghost predicate CompletionRecorded(db: School, user: nat, course: nat) {
    CourseIsComplete(db, user, course) ==>
      Taking(user, course) in db.enrollments && db.enrollments[Taking(user, course)].completedAt.Some?
  }

  ghost predicate Sound(db: School) {
    && Curriculum.Sound(db.catalog)
    && (forall seat :: seat in db.progress ==> SeatEnrolled(db, seat))
    && (forall user, course :: CompletionRecorded(db, user, course))
  }

  lemma BookmarkEnrols(db: School, user: nat, lesson: nat)
    requires lesson in db.catalog.lessons
    ensures var after := Bookmark(db, user, lesson);
            var taking := Taking(user, db.catalog.lessons[lesson].course);
            && after.catalog == db.catalog && after.progress == db.progress
            && after.enrollments.Keys == db.enrollments.Keys + {taking}
            && (forall t :: t in db.enrollments ==> after.enrollments[t].completedAt == db.enrollments[t].completedAt)
            && (taking !in db.enrollments ==> after.enrollments[taking].completedAt.None?)
            && after.enrollments[taking].lastLesson == lesson
  {
  }

  lemma CompleteCourseRecords(db: School, user: nat, course: nat, now: Time)
    requires Taking(user, course) in db.enrollments
    ensures var after := CompleteCourse(db, user, course, now);
            && after.catalog == db.catalog && after.progress == db.progress
            && after.enrollments.Keys == db.enrollments.Keys
            && (forall t :: t in db.enrollments && db.enrollments[t].completedAt.Some? ==>
                  after.enrollments[t].completedAt == db.enrollments[t].completedAt)
            && (CourseIsComplete(db, user, course) ==> after.enrollments[Taking(user, course)].completedAt.Some?)
  {
    hide CourseIsComplete;
  }

  /** A step that finishes no lesson leaves every course as complete as it was. */
  lemma SameFinishedSameCompletion(before: School, after: School, user: nat, course: nat)
    requires before.catalog == after.catalog
    requires forall l :: IsFinished(after.progress, user, l) <==> IsFinished(before.progress, user, l)
    ensures CourseIsComplete(after, user, course) == CourseIsComplete(before, user, course)
  {
    assert FinishedIn(after, user, course) == FinishedIn(before, user, course);
  }

  lemma SaveKeepsSound(db: School, user: nat, lesson: nat, row: Progress, now: Time)
    requires Sound(db) && lesson in db.catalog.lessons
    requires RowOf(db, user, lesson).completedAt.Some? ==> row.completedAt.Some?
    ensures Sound(Save(db, user, lesson, row, now))
  {
    hide CourseIsComplete, Bookmark, CompleteCourse, Curriculum.Sound;
    var course := db.catalog.lessons[lesson].course;
    var justFinished := RowOf(db, user, lesson).completedAt.None? && row.completedAt.Some?;
    var saved := db.(progress := db.progress[Seat(user, lesson) := row]);
    var marked := Bookmark(saved, user, lesson);
    BookmarkEnrols(saved, user, lesson);
    var after := Save(db, user, lesson, row, now);
    if justFinished {
      CompleteCourseRecords(marked, user, course, now);
      assert after == CompleteCourse(marked, user, course, now);
    }
    assert after.catalog == db.catalog && after.progress == saved.progress;
    forall seat | seat in after.progress
      ensures SeatEnrolled(after, seat)
    {
      assert seat in db.progress ==> SeatEnrolled(db, seat);
    }
    forall u, k
      ensures CompletionRecorded(after, u, k)
    {
      assert CompletionRecorded(db, u, k);
      if !(u == user && k == course) {
        OtherCoursesUnaffected(db, after, user, lesson, row, u, k);
      } else if !justFinished {
        SameFinishedSameCompletion(db, after, u, k);
      } else {
        SameFinishedSameCompletion(marked, after, u, k);
      }
    }
  }

  lemma OtherCoursesUnaffected(db: School, after: School, user: nat, lesson: nat, row: Progress, u: nat, k: nat)
    requires lesson in db.catalog.lessons && after.catalog == db.catalog
    requires after.progress == db.progress[Seat(user, lesson) := row]
    requires !(u == user && k == db.catalog.lessons[lesson].course)
    ensures CourseIsComplete(after, u, k) == CourseIsComplete(db, u, k)
  {
    assert FinishedIn(after, u, k) == FinishedIn(db, u, k);
  }

  lemma CatalogKeepsSound(db: School, write: Curriculum.Op)
    requires Sound(db)
    ensures Sound(db.(catalog := Curriculum.Step(db.catalog, write).0))
  {
    hide Curriculum.Sound, Curriculum.Step, CourseIsComplete;
    Curriculum.StepKeepsSound(db.catalog, write);
    var after := db.(catalog := Curriculum.Step(db.catalog, write).0);
    forall seat | seat in after.progress
      ensures SeatEnrolled(after, seat)
    {
      assert SeatEnrolled(db, seat);
      Curriculum.StepKeepsCourses(db.catalog, write, seat.lesson);
    }
    forall user, course
      ensures CompletionRecorded(after, user, course)
    {
      assert CompletionRecorded(db, user, course);
      if CourseIsComplete(after, user, course) {
        CompleteBefore(db, write, user, course);
      }
    }
  }

  /** A catalogue write can only take a course away from completion: a new lesson has no progress yet. */
  lemma CompleteBefore(db: School, write: Curriculum.Op, user: nat, course: nat)
    requires forall seat :: seat in db.progress ==> SeatEnrolled(db, seat)
    requires CourseIsComplete(db.(catalog := Curriculum.Step(db.catalog, write).0), user, course)
    ensures CourseIsComplete(db, user, course)
  {
    hide Curriculum.Step, CourseIsComplete;
    var after := db.(catalog := Curriculum.Step(db.catalog, write).0);
    CompleteMeansEveryLesson(after, user, course);
    CompleteMeansEveryLesson(db, user, course);
    var l :| l in Curriculum.LessonsOf(after.catalog, course);
    assert IsFinished(db.progress, user, l);
    assert SeatEnrolled(db, Seat(user, l));
    Curriculum.StepKeepsCourses(db.catalog, write, l);
    assert l in Curriculum.LessonsOf(db.catalog, course);
    forall m | m in Curriculum.LessonsOf(db.catalog, course)
      ensures IsFinished(db.progress, user, m)
    {
      Curriculum.StepKeepsCourses(db.catalog, write, m);
      assert m in Curriculum.LessonsOf(after.catalog, course);
      assert IsFinished(after.progress, user, m);
    }
    assert AllFinished(db, user, course);
  }

  lemma StepKeepsSound(db: School, op: Op, s: Settings)
    requires Sound(db)
    ensures Sound(Step(db, op, s).0)
  {
    hide Sound, Save, IsComplete, Curriculum.Step;
    match op
    case ProgressOp(user, lesson, entitled, duration, beat) =>
      if lesson in db.catalog.lessons && entitled {
        SaveKeepsSound(db, user, lesson, Fold(RowOf(db, user, lesson), beat, duration, s), beat.now);
      }
    case MarkOp(user, lesson, entitled, now) =>
      if lesson in db.catalog.lessons && entitled {
        SaveKeepsSound(db, user, lesson, MarkedRow(RowOf(db, user, lesson), now), now);
      }
    case CatalogOp(write) => CatalogKeepsSound(db, write);
  }

  lemma {:induction false} EveryRunIsSound(ops: seq<Op>, s: Settings)
    ensures Sound(Run(ops, s))
  {
    hide Step, Sound;
    if ops == [] {
      EmptyIsSound();
    } else {
      EveryRunIsSound(ops[..|ops| - 1], s);
      StepKeepsSound(Run(ops[..|ops| - 1], s), ops[|ops| - 1], s);
    }
  }

  lemma EmptyIsSound()
    ensures Sound(EMPTY)
  {
    forall user, course
      ensures CompletionRecorded(EMPTY, user, course)
    {
      assert Curriculum.LessonsOf(EMPTY.catalog, course) == {};
    }
  }

  /**
    In every run: a learner who has finished every lesson of a course that has any is enrolled in it with a
    completion date, although the check runs only when a lesson has just been finished.
  */
  lemma FinishingEveryLessonCompletesTheCourse(ops: seq<Op>, s: Settings, user: nat, course: nat)
    requires Curriculum.LessonsOf(Run(ops, s).catalog, course) != {}
    requires AllFinished(Run(ops, s), user, course)
    ensures Taking(user, course) in Run(ops, s).enrollments
    ensures Run(ops, s).enrollments[Taking(user, course)].completedAt.Some?
  {
    hide Run, CourseIsComplete;
    EveryRunIsSound(ops, s);
    CompleteMeansEveryLesson(Run(ops, s), user, course);
    assert CompletionRecorded(Run(ops, s), user, course);
  }

  // ----- and when two steps overlap -----

  /** A request writes the enrolment, and so waits for its row lock, exactly when it enrols or moves the bookmark. */
  predicate WritesEnrollment(db: School, user: nat, lesson: nat)
    requires lesson in db.catalog.lessons
  {
    var taking := Taking(user, db.catalog.lessons[lesson].course);
    taking !in db.enrollments || db.enrollments[taking].lastLesson != lesson
  }

  /**
    Two requests that complete lessons of one course at the same time, `a` the first to reach the enrolment.
    If both write that row the second waits there, and counts after the first has committed; or, when both
    try to insert it, the second is refused and takes its completion back. If one of them does not write it,
    neither waits: each counts before the other has committed, and then both commit.
  */
  function Overlap(db: School, user: nat, a: nat, b: nat, now: Time): School
    requires a in db.catalog.lessons && b in db.catalog.lessons
  {
    var first, second := MarkComplete(db, user, a, true, now).0, MarkComplete(db, user, b, true, now).0;
    if WritesEnrollment(db, user, a) && WritesEnrollment(db, user, b) then
      if Taking(user, db.catalog.lessons[a].course) !in db.enrollments then first
      else MarkComplete(first, user, b, true, now).0
    else
      School(db.catalog, first.progress + map[Seat(user, b) := RowOf(second, user, b)],
             if WritesEnrollment(db, user, a) then first.enrollments else second.enrollments)
  }

  /** Every lesson is finished, and nothing says the course is. */
  predicate Missed(db: School, user: nat, course: nat) {
    CourseIsComplete(db, user, course) &&
    !(Taking(user, course) in db.enrollments && db.enrollments[Taking(user, course)].completedAt.Some?)
  }

  /**
    Two overlapping requests for unfinished lessons leave the course finished and not recorded as completed
    exactly when those were the last two, the bookmark was on one of them, and it was not recorded before.
  */
  lemma OverlappingFinishersMissTheCourse(db: School, user: nat, course: nat, a: nat, b: nat, now: Time)
    requires a in Curriculum.LessonsOf(db.catalog, course) && b in Curriculum.LessonsOf(db.catalog, course) && a != b
    requires !IsFinished(db.progress, user, a) && !IsFinished(db.progress, user, b)
    ensures Missed(Overlap(db, user, a, b, now), user, course) <==>
            && Taking(user, course) in db.enrollments
            && db.enrollments[Taking(user, course)].lastLesson in {a, b}
            && db.enrollments[Taking(user, course)].completedAt.None?
            && OthersFinished(db, user, course, a, b)
  {
    hide CourseIsComplete;
    if Taking(user, course) !in db.enrollments {
      FirstOfTwo(db, user, course, a, b, now);
    } else if WritesEnrollment(db, user, a) && WritesEnrollment(db, user, b) {
      OneAfterTheOther(db, user, course, a, b, now);
    } else {
      StillUnfinished(db, user, course, a, b, now);
      StillUnfinished(db, user, course, b, a, now);
      CompleteMeansEveryLesson(Overlap(db, user, a, b, now), user, course);
      BookmarkEnrols(db, user, a);
      BookmarkEnrols(db, user, b);
    }
  }

  lemma FirstOfTwo(db: School, user: nat, course: nat, a: nat, b: nat, now: Time)
    requires a in Curriculum.LessonsOf(db.catalog, course) && b in Curriculum.LessonsOf(db.catalog, course) && a != b
    requires !IsFinished(db.progress, user, b)
    ensures !CourseIsComplete(MarkComplete(db, user, a, true, now).0, user, course)
  {
    hide CourseIsComplete;
    CompleteMeansEveryLesson(MarkComplete(db, user, a, true, now).0, user, course);
  }

  lemma OneAfterTheOther(db: School, user: nat, course: nat, a: nat, b: nat, now: Time)
    requires a in Curriculum.LessonsOf(db.catalog, course) && b in Curriculum.LessonsOf(db.catalog, course) && a != b
    requires !IsFinished(db.progress, user, b) && !IsFinished(db.progress, user, a)
    requires Taking(user, course) in db.enrollments
    ensures !Missed(MarkComplete(MarkComplete(db, user, a, true, now).0, user, b, true, now).0, user, course)
  {
    hide CourseIsComplete, Bookmark, CompleteCourse;
    StillUnfinished(db, user, course, a, b, now);
    var first := MarkComplete(db, user, a, true, now).0;
    assert RowOf(first, user, b).completedAt.None?;
    var saved := first.(progress := first.progress[Seat(user, b) := MarkedRow(RowOf(first, user, b), now)]);
    BookmarkEnrols(saved, user, b);
    var marked := Bookmark(saved, user, b);
    CompleteCourseRecords(marked, user, course, now);
    SameFinishedSameCompletion(marked, CompleteCourse(marked, user, course, now), user, course);
  }

  predicate OthersFinished(db: School, user: nat, course: nat, a: nat, b: nat) {
    forall l :: l in Curriculum.LessonsOf(db.catalog, course) && l != a && l != b ==> IsFinished(db.progress, user, l)
  }

  lemma StillUnfinished(db: School, user: nat, course: nat, done: nat, open: nat, now: Time)
    requires done in Curriculum.LessonsOf(db.catalog, course) && open in Curriculum.LessonsOf(db.catalog, course)
    requires done != open && !IsFinished(db.progress, user, open) && !IsFinished(db.progress, user, done)
    requires Taking(user, course) in db.enrollments
    ensures var after := MarkComplete(db, user, done, true, now).0;
            && after.catalog == db.catalog
            && after.enrollments == Bookmark(db, user, done).enrollments
            && Taking(user, course) in after.enrollments
            && after.enrollments[Taking(user, course)].completedAt == db.enrollments[Taking(user, course)].completedAt
            && after.progress == db.progress[Seat(user, done) := MarkedRow(RowOf(db, user, done), now)]
  {
    hide CourseIsComplete;
    var saved := db.(progress := db.progress[Seat(user, done) := MarkedRow(RowOf(db, user, done), now)]);
    var marked := Bookmark(saved, user, done);
    CompleteMeansEveryLesson(marked, user, course);
    assert !IsFinished(marked.progress, user, open);
  }

  // ----- dates are written once -----

  ghost predicate DatesKept(before: School, after: School) {
    && before.progress.Keys <= after.progress.Keys
    && before.enrollments.Keys <= after.enrollments.Keys
    && (forall seat | seat in before.progress && before.progress[seat].completedAt.Some? ::
          after.progress[seat].completedAt == before.progress[seat].completedAt)
    && (forall t | t in before.enrollments && before.enrollments[t].completedAt.Some? ::
          after.enrollments[t].completedAt == before.enrollments[t].completedAt)
  }

  lemma SaveKeepsDates(db: School, user: nat, lesson: nat, row: Progress, now: Time)
    requires lesson in db.catalog.lessons
    requires RowOf(db, user, lesson).completedAt.Some? ==> row.completedAt == RowOf(db, user, lesson).completedAt
    ensures DatesKept(db, Save(db, user, lesson, row, now))
  {
    hide CourseIsComplete, Bookmark, CompleteCourse;
    var saved := db.(progress := db.progress[Seat(user, lesson) := row]);
    BookmarkEnrols(saved, user, lesson);
    CompleteCourseRecords(Bookmark(saved, user, lesson), user, db.catalog.lessons[lesson].course, now);
  }

  lemma StepKeepsDates(db: School, op: Op, s: Settings)
    ensures DatesKept(db, Step(db, op, s).0)
  {
    hide IsComplete, Save, Curriculum.Step;
    match op
    case ProgressOp(user, lesson, entitled, duration, beat) =>
      if lesson in db.catalog.lessons && entitled {
        SaveKeepsDates(db, user, lesson, Fold(RowOf(db, user, lesson), beat, duration, s), beat.now);
      }
    case MarkOp(user, lesson, entitled, now) =>
      if lesson in db.catalog.lessons && entitled {
        SaveKeepsDates(db, user, lesson, MarkedRow(RowOf(db, user, lesson), now), now);
      }
    case CatalogOp(write) =>
  }

  /** Neither completion date is ever moved or cleared by anything that happens later. */
  lemma {:induction false} DatesAreWrittenOnce(ops: seq<Op>, i: nat, j: nat, s: Settings)
    requires i <= j <= |ops|
    ensures DatesKept(Run(ops[..i], s), Run(ops[..j], s))
    decreases j
  {
    hide Step, Run;
    if i < j {
      DatesAreWrittenOnce(ops, i, j - 1, s);
      StepKeepsDates(Run(ops[..j - 1], s), ops[j - 1], s);
      RunNext(ops, j - 1, s);
    }
  }

  lemma RunNext(ops: seq<Op>, i: nat, s: Settings)
    requires i < |ops|
    ensures Run(ops[..i + 1], s) == Step(Run(ops[..i], s), ops[i], s).0
  {
    hide Step;
    assert ops[..i + 1][..i] == ops[..i];
  }

  // ----- the rows are their history -----

  /** A service call that is let through: an entitled learner, on a lesson that exists. */
  predicate Accepted(db: School, op: Op) {
    (op.ProgressOp? || op.MarkOp?) && op.entitled && op.lesson in db.catalog.lessons
  }

  function SeatOf(op: Op): Seat
    requires op.ProgressOp? || op.MarkOp?
  {
    Seat(op.user, op.lesson)
  }

  function TimeOf(op: Op): Time
    requires op.ProgressOp? || op.MarkOp?
  {
    if op.ProgressOp? then op.beat.now else op.now
  }

  /** What one accepted call makes of the learner's row, whatever is in the other rows. */
  function RowAfter(row: Progress, op: Op, s: Settings): Progress
    requires op.ProgressOp? || op.MarkOp?
  {
    if op.ProgressOp? then Fold(row, op.beat, op.duration, s)
    else if row.completedAt.None? then row.(completedAt := Some(op.now))
    else row
  }

  lemma SaveWrites(db: School, user: nat, lesson: nat, row: Progress, now: Time)
    requires lesson in db.catalog.lessons
    ensures var after := Save(db, user, lesson, row, now);
            var taking := Taking(user, db.catalog.lessons[lesson].course);
            && after.catalog == db.catalog && after.progress == db.progress[Seat(user, lesson) := row]
            && after.enrollments.Keys == db.enrollments.Keys + {taking}
            && after.enrollments[taking].lastLesson == lesson
            && (forall t :: t in db.enrollments && t != taking ==> after.enrollments[t] == db.enrollments[t])
  {
    hide CourseIsComplete;
  }

  /** An accepted call writes the learner's row for that lesson, their enrolment in its course, and nothing else. */
  lemma AcceptedWrites(db: School, op: Op, s: Settings)
    ensures op.ProgressOp? || op.MarkOp? ==> (Step(db, op, s).1 == Saved <==> Accepted(db, op))
    ensures (op.ProgressOp? || op.MarkOp?) && !Accepted(db, op) ==>
              Step(db, op, s) == (db, if op.lesson in db.catalog.lessons then EntitlementDenied else NoSuchLesson)
    ensures op.CatalogOp? ==>
              Step(db, op, s).0.progress == db.progress && Step(db, op, s).0.enrollments == db.enrollments
    ensures Accepted(db, op) ==>
              var after := Step(db, op, s).0;
              var taking := Taking(op.user, db.catalog.lessons[op.lesson].course);
              && after.catalog == db.catalog
              && after.progress == db.progress[SeatOf(op) := RowAfter(RowOf(db, op.user, op.lesson), op, s)]
              && after.enrollments.Keys == db.enrollments.Keys + {taking}
              && after.enrollments[taking].lastLesson == op.lesson
              && (forall t :: t in db.enrollments && t != taking ==> after.enrollments[t] == db.enrollments[t])
  {
    hide Save, Curriculum.Step, IsComplete, Clamped, Capped;
    if Accepted(db, op) {
      SaveWrites(db, op.user, op.lesson, RowAfter(RowOf(db, op.user, op.lesson), op, s), TimeOf(op));
    }
  }

  ghost predicate AcceptedOn(ops: seq<Op>, i: nat, seat: Seat, s: Settings)
    requires i < |ops|
  {
    Accepted(Run(ops[..i], s), ops[i]) && SeatOf(ops[i]) == seat
  }

  /** The learner's row after the accepted calls on this lesson alone, none of the others being looked at. */
  ghost function RowHistory(ops: seq<Op>, seat: Seat, s: Settings): Option<Progress> {
    if ops == [] then None else
      var n := |ops| - 1;
      var before := RowHistory(ops[..n], seat, s);
      if AcceptedOn(ops, n, seat, s)
      then Some(RowAfter(if before.Some? then before.value else Progress(0, 0, 0, None), ops[n], s)) else before
  }

  /** In every run a learner's row on a lesson is exactly what their own calls on it made, in order. */
  lemma {:induction false} SeatRowIsItsHistory(ops: seq<Op>, seat: Seat, s: Settings)
    ensures RowHistory(ops, seat, s) == if seat in Run(ops, s).progress then Some(Run(ops, s).progress[seat]) else None
  {
    if ops != [] {
      hide Step, RowAfter;
      var n := |ops| - 1;
      SeatRowIsItsHistory(ops[..n], seat, s);
      AcceptedWrites(Run(ops[..n], s), ops[n], s);
    }
  }

  /** The playhead of a seat's last accepted beat stays where it is, whatever marks and catalogue writes follow. */
  lemma {:induction false} PlayheadIsKept(ops: seq<Op>, i: nat, n: nat, seat: Seat, s: Settings)
    requires i < n <= |ops| && ops[i].ProgressOp? && AcceptedOn(ops, i, seat, s)
    requires forall k :: i < k < n && ops[k].ProgressOp? ==> !AcceptedOn(ops, k, seat, s)
    ensures seat in Run(ops[..n], s).progress
    ensures var position := ops[i].beat.position;
            Run(ops[..n], s).progress[seat].last == if position < 0 then 0 else position
    decreases n
  {
    hide Step, Run;
    AcceptedWrites(Run(ops[..n - 1], s), ops[n - 1], s);
    RunNext(ops, n - 1, s);
    if i < n - 1 {
      PlayheadIsKept(ops, i, n - 1, seat, s);
    }
  }

  // ----- what the dates and the bookmark say -----

  /** A lesson's date is the moment of the accepted call that finished it. */
  lemma {:induction false} LessonDateIsItsStep(ops: seq<Op>, n: nat, seat: Seat, s: Settings) returns (i: nat)
    requires n <= |ops| && IsFinished(Run(ops[..n], s).progress, seat.user, seat.lesson)
    ensures i < n && AcceptedOn(ops, i, seat, s) && !IsFinished(Run(ops[..i], s).progress, seat.user, seat.lesson)
    ensures Run(ops[..n], s).progress[seat].completedAt == Some(TimeOf(ops[i]))
    decreases n
  {
    hide Step, IsComplete, Clamped, Capped;
    assert n > 0;
    AcceptedWrites(Run(ops[..n - 1], s), ops[n - 1], s);
    RunNext(ops, n - 1, s);
    if IsFinished(Run(ops[..n - 1], s).progress, seat.user, seat.lesson) {
      i := LessonDateIsItsStep(ops, n - 1, seat, s);
    } else {
      i := n - 1;
    }
  }

  /** The call touches the course: it is accepted, and on one of its lessons. */
  ghost predicate Touches(ops: seq<Op>, i: nat, taking: Taking, s: Settings)
    requires i < |ops|
  {
    var db := Run(ops[..i], s);
    Accepted(db, ops[i]) && taking == Taking(ops[i].user, db.catalog.lessons[ops[i].lesson].course)
  }

  /** A learner is enrolled exactly when some call touched the course, and resumes at the lesson of the last. */
  lemma {:induction false} BookmarkIsTheLastLesson(ops: seq<Op>, n: nat, taking: Taking, s: Settings) returns (i: nat)
    requires n <= |ops|
    ensures taking in Run(ops[..n], s).enrollments <==> exists k :: 0 <= k < n && Touches(ops, k, taking, s)
    ensures taking in Run(ops[..n], s).enrollments ==>
              && i < n && Touches(ops, i, taking, s)
              && Run(ops[..n], s).enrollments[taking].lastLesson == ops[i].lesson
              && forall k :: i < k < n ==> !Touches(ops, k, taking, s)
    decreases n
  {
    i := 0;
    if n == 0 {
      assert ops[..0] == [];
    } else {
      hide Step, Run;
      AcceptedWrites(Run(ops[..n - 1], s), ops[n - 1], s);
      RunNext(ops, n - 1, s);
      i := BookmarkIsTheLastLesson(ops, n - 1, taking, s);
      if Touches(ops, n - 1, taking, s) {
        i := n - 1;
      }
    }
  }

  lemma CourseDateStep(db: School, op: Op, s: Settings, taking: Taking)
    requires Sound(db)
    requires taking in Step(db, op, s).0.enrollments && Step(db, op, s).0.enrollments[taking].completedAt.Some?
    requires taking in db.enrollments ==> db.enrollments[taking].completedAt.None?
    ensures Accepted(db, op) && taking == Taking(op.user, db.catalog.lessons[op.lesson].course)
    ensures Step(db, op, s).0.enrollments[taking].completedAt == Some(TimeOf(op))
    ensures CourseIsComplete(Step(db, op, s).0, taking.user, taking.course)
    ensures !CourseIsComplete(db, taking.user, taking.course)
  {
    hide Sound, CourseIsComplete, Save, Curriculum.Step, IsComplete, Clamped, Capped;
    AcceptedWrites(db, op, s);
    SoundMeansRecorded(db, taking);
    if Accepted(db, op) {
      SaveDates(db, op.user, op.lesson, RowAfter(RowOf(db, op.user, op.lesson), op, s), TimeOf(op), taking);
    }
  }

  lemma SoundMeansRecorded(db: School, taking: Taking)
    requires Sound(db)
    ensures CourseIsComplete(db, taking.user, taking.course) ==>
              taking in db.enrollments && db.enrollments[taking].completedAt.Some?
  {
    hide CourseIsComplete;
    assert CompletionRecorded(db, taking.user, taking.course);
  }

  lemma SaveDates(db: School, user: nat, lesson: nat, row: Progress, now: Time, taking: Taking)
    requires lesson in db.catalog.lessons
    requires taking in Save(db, user, lesson, row, now).enrollments
    requires Save(db, user, lesson, row, now).enrollments[taking].completedAt.Some?
    requires taking in db.enrollments ==> db.enrollments[taking].completedAt.None?
    ensures taking == Taking(user, db.catalog.lessons[lesson].course)
    ensures Save(db, user, lesson, row, now).enrollments[taking].completedAt == Some(now)
    ensures CourseIsComplete(Save(db, user, lesson, row, now), user, taking.course)
  {
    hide CourseIsComplete;
    var marked := Bookmark(db.(progress := db.progress[Seat(user, lesson) := row]), user, lesson);
    SameFinishedSameCompletion(marked, Save(db, user, lesson, row, now), user, taking.course);
  }

  /** A course's date is the moment of the accepted call that finished its last lesson. */
  lemma {:induction false} CourseDateIsItsStep(ops: seq<Op>, n: nat, taking: Taking, s: Settings) returns (i: nat)
    requires n <= |ops|
    requires taking in Run(ops[..n], s).enrollments && Run(ops[..n], s).enrollments[taking].completedAt.Some?
    ensures i < n && Touches(ops, i, taking, s)
    ensures Run(ops[..n], s).enrollments[taking].completedAt == Some(TimeOf(ops[i]))
    ensures !CourseIsComplete(Run(ops[..i], s), taking.user, taking.course)
    ensures CourseIsComplete(Run(ops[..i + 1], s), taking.user, taking.course)
    decreases n
  {
    hide Step, Sound, CourseIsComplete;
    assert n > 0;
    RunNext(ops, n - 1, s);
    var before := Run(ops[..n - 1], s);
    EveryRunIsSound(ops[..n - 1], s);
    if taking in before.enrollments && before.enrollments[taking].completedAt.Some? {
      i := CourseDateIsItsStep(ops, n - 1, taking, s);
      StepKeepsDates(before, ops[n - 1], s);
    } else {
      i := n - 1;
      CourseDateStep(before, ops[n - 1], s, taking);
    }
  }
}
