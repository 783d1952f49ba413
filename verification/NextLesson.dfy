/** What to play next: the three queries that must name the same lesson, and following them to the end. */
module NextLesson {
  import opened Heartbeats
  import opened Learning
  import Curriculum
  import Ordering

  function Unfinished(db: School, user: nat, course: nat): set<nat> {
    set l | l in Curriculum.LessonsOf(db.catalog, course) && !IsFinished(db.progress, user, l)
  }

  /** A row the queries may return first: of the course, not completed, and none of those before it. */
  ghost predicate MayComeFirst(db: School, user: nat, course: nat, lesson: nat) {
    && lesson in Unfinished(db, user, course)
    && forall other :: other in Unfinished(db, user, course) ==> !Curriculum.Precedes(db.catalog, other, lesson)
  }

  lemma OrderIsTotal(c: Curriculum.Catalog, course: nat, x: nat, y: nat)
    requires Curriculum.Sound(c)
    requires x in Curriculum.LessonsOf(c, course) && y in Curriculum.LessonsOf(c, course) && x != y
    ensures Curriculum.Precedes(c, x, y) || Curriculum.Precedes(c, y, x)
  {
    assert Curriculum.Agrees(c, c.lessons[x]) && Curriculum.Agrees(c, c.lessons[y]);
    assert !Curriculum.SameSlot(c.lessons[x], c.lessons[y]);
    if c.lessons[x].section != c.lessons[y].section {
      assert !Curriculum.SamePlace(c.sections[c.lessons[x].section], c.sections[c.lessons[y].section]);
    }
  }

  lemma FirstIsUnique(db: School, user: nat, course: nat, x: nat, y: nat)
    requires Sound(db) && MayComeFirst(db, user, course, x) && MayComeFirst(db, user, course, y)
    ensures x == y
  {
    hide Curriculum.Sound, Curriculum.Precedes;
    if x != y {
      OrderIsTotal(db.catalog, course, x, y);
    }
  }

  /** `_next_lesson_slug` selects only a slug: that of a row which may come first. */
  ghost predicate MayBeNextSlug(db: School, user: nat, course: nat, slug: string) {
    exists l :: MayComeFirst(db, user, course, l) && l in db.catalog.lessons && db.catalog.lessons[l].slug == slug
  }

  /**
    `_next_lesson_id` gives an id, `_next_lesson_slug` a slug and `next_lesson_for` a row, and each may pick
    any row that may come first. The row is the one of that id, and the page under that slug in the course is
    that lesson and no other: nothing ties in the curriculum order, and no two lessons share a slug.
  */
  lemma QueriesNameOneLesson(db: School, user: nat, course: nat, id: nat, slug: string, row: nat)
    requires Sound(db) && MayComeFirst(db, user, course, id)
    requires MayBeNextSlug(db, user, course, slug) && MayComeFirst(db, user, course, row)
    ensures row == id
    ensures forall l :: l in Curriculum.LessonsOf(db.catalog, course) ==>
              (db.catalog.lessons[l].slug == slug <==> l == id)
  {
    hide Curriculum.Precedes, MayComeFirst;
    FirstIsUnique(db, user, course, id, row);
    var named :| MayComeFirst(db, user, course, named) && named in db.catalog.lessons
                 && db.catalog.lessons[named].slug == slug;
    FirstIsUnique(db, user, course, id, named);
    FirstIsOfTheCourse(db, user, course, id);
    forall l | l in Curriculum.LessonsOf(db.catalog, course) && db.catalog.lessons[l].slug == slug
      ensures l == id
    {
      assert Curriculum.SameSlot(db.catalog.lessons[l], db.catalog.lessons[id]);
    }
  }

  lemma FirstIsOfTheCourse(db: School, user: nat, course: nat, lesson: nat)
    requires MayComeFirst(db, user, course, lesson)
    ensures lesson in Curriculum.LessonsOf(db.catalog, course)
  {
  }

  /** The lessons still to do, in curriculum order. */
  ghost function Remaining(db: School, user: nat, lessons: seq<nat>): (rest: seq<nat>)
  {
    if lessons == [] then [] else
      (if IsFinished(db.progress, user, lessons[0]) then [] else [lessons[0]]) + Remaining(db, user, lessons[1..])
  }

  lemma {:induction false} RemainingMembers(db: School, user: nat, lessons: seq<nat>, x: nat)
    ensures x in Remaining(db, user, lessons) <==> x in lessons && !IsFinished(db.progress, user, x)
  {
    if lessons != [] {
      RemainingMembers(db, user, lessons[1..], x);
      assert lessons == [lessons[0]] + lessons[1..];
    }
  }

  lemma {:induction false} RemainingIsSorted(db: School, user: nat, lessons: seq<nat>)
    requires Ordering.Sorted(lessons, (x, y) => Curriculum.Precedes(db.catalog, x, y))
    ensures Ordering.Sorted(Remaining(db, user, lessons), (x, y) => Curriculum.Precedes(db.catalog, x, y))
  {
    hide Curriculum.Precedes;
    if lessons != [] {
      var rest := lessons[1..];
      RemainingIsSorted(db, user, rest);
      var todo := Remaining(db, user, rest);
      forall i | 0 <= i < |todo|
        ensures Curriculum.Precedes(db.catalog, lessons[0], todo[i])
      {
        assert todo[i] in todo;
        RemainingMembers(db, user, rest, todo[i]);
        var k :| 0 <= k < |rest| && rest[k] == todo[i];
        assert lessons[k + 1] == todo[i];
      }
    }
  }

  ghost function Todo(db: School, user: nat, course: nat): seq<nat>
    requires Sound(db)
  {
    Remaining(db, user, Curriculum.CourseOrder(db.catalog, course))
  }

  lemma TodoFacts(db: School, user: nat, course: nat)
    requires Sound(db)
    ensures forall x :: x in Todo(db, user, course) <==> x in Unfinished(db, user, course)
    ensures Ordering.Sorted(Todo(db, user, course), (x, y) => Curriculum.Precedes(db.catalog, x, y))
  {
    hide Curriculum.Sound, Curriculum.Precedes, Curriculum.CourseOrder;
    var order := Curriculum.CourseOrder(db.catalog, course);
    Curriculum.CourseOrderListsCourse(db.catalog, course);
    RemainingIsSorted(db, user, order);
    forall x
      ensures x in Todo(db, user, course) <==> x in Unfinished(db, user, course)
    {
      RemainingMembers(db, user, order, x);
    }
  }

  /** The lesson the queries return is the earliest gap: the first of the curriculum not yet completed. */
  lemma NextIsTheEarliestGap(db: School, user: nat, course: nat, lesson: nat)
    requires Sound(db)
    ensures MayComeFirst(db, user, course, lesson) <==>
            Todo(db, user, course) != [] && Todo(db, user, course)[0] == lesson
  {
    hide Sound, Todo, Curriculum.Precedes;
    TodoFacts(db, user, course);
    var todo := Todo(db, user, course);
    if todo != [] {
      assert todo[0] in todo;
      HeadMayComeFirst(db, user, course);
      if MayComeFirst(db, user, course, lesson) {
        FirstIsUnique(db, user, course, lesson, todo[0]);
      }
    }
  }

  lemma HeadMayComeFirst(db: School, user: nat, course: nat)
    requires Sound(db) && Todo(db, user, course) != []
    ensures MayComeFirst(db, user, course, Todo(db, user, course)[0])
  {
    hide Sound, Todo;
    TodoFacts(db, user, course);
    var todo := Todo(db, user, course);
    assert todo[0] in todo;
    forall other | other in Unfinished(db, user, course)
      ensures !Curriculum.Precedes(db.catalog, other, todo[0])
    {
      assert other in todo;
      var i :| 0 <= i < |todo| && todo[i] == other;
      assert i > 0 ==> Curriculum.Precedes(db.catalog, todo[0], other);
    }
  }

  /** There is no next lesson exactly when the course is complete or has no lessons at all. */
  lemma NoNextMeansComplete(db: School, user: nat, course: nat)
    requires Sound(db)
    ensures Todo(db, user, course) == [] <==>
            CourseIsComplete(db, user, course) || Curriculum.LessonsOf(db.catalog, course) == {}
  {
    hide Sound, Todo, CourseIsComplete, Curriculum.Precedes;
    TodoFacts(db, user, course);
    CompleteMeansEveryLesson(db, user, course);
    if Todo(db, user, course) != [] {
      assert Todo(db, user, course)[0] in Todo(db, user, course);
    } else {
      forall l | l in Curriculum.LessonsOf(db.catalog, course)
        ensures IsFinished(db.progress, user, l)
      {
        assert l !in Unfinished(db, user, course);
      }
    }
  }

  // ----- following the next lesson to the end -----

  /** An entitled learner keeps marking the next lesson complete; what they visit, and where it ends. */
  ghost function Follow(db: School, user: nat, course: nat, now: Time): (r: (School, seq<nat>))
    requires Sound(db)
    decreases |Todo(db, user, course)|
  {
    var todo := Todo(db, user, course);
    if todo == [] then (db, []) else
      MarkingNextDropsIt(db, user, course, now);
      var (after, visited) := Follow(MarkComplete(db, user, todo[0], true, now).0, user, course, now);
      (after, [todo[0]] + visited)
  }

  lemma {:induction false} RemainingAfterMark(before: School, after: School, user: nat, lessons: seq<nat>, lesson: nat)
    requires forall l :: IsFinished(after.progress, user, l) <==> IsFinished(before.progress, user, l) || l == lesson
    requires Ordering.Distinct(lessons)
    ensures lesson !in lessons ==> Remaining(after, user, lessons) == Remaining(before, user, lessons)
    ensures Remaining(before, user, lessons) != [] && Remaining(before, user, lessons)[0] == lesson ==>
              Remaining(after, user, lessons) == Remaining(before, user, lessons)[1..]
  {
    if lessons != [] {
      RemainingAfterMark(before, after, user, lessons[1..], lesson);
      assert lessons == [lessons[0]] + lessons[1..];
      forall i | 0 <= i < |lessons| - 1
        ensures lessons[1..][i] != lessons[0]
      {
        assert lessons[1..][i] == lessons[i + 1];
      }
      RemainingMembers(before, user, lessons[1..], lesson);
    }
  }

  lemma MarkingNextDropsIt(db: School, user: nat, course: nat, now: Time)
    requires Sound(db) && Todo(db, user, course) != []
    ensures var after := MarkComplete(db, user, Todo(db, user, course)[0], true, now).0;
            Sound(after) && Todo(after, user, course) == Todo(db, user, course)[1..]
  {
    hide Sound, Todo, Remaining, Curriculum.Precedes, Curriculum.CourseOrder, Curriculum.Sound, CourseIsComplete;
    var next := Todo(db, user, course)[0];
    TodoFacts(db, user, course);
    assert next in Todo(db, user, course);
    var after := MarkComplete(db, user, next, true, now).0;
    MarkIsSound(db, user, next, now);
    MarkFinishesOne(db, user, next, now);
    TodoUnfolds(db, user, course);
    TodoUnfolds(after, user, course);
    CourseOrderIsDistinct(db, course);
    RemainingAfterMark(db, after, user, Curriculum.CourseOrder(db.catalog, course), next);
  }

  lemma TodoUnfolds(db: School, user: nat, course: nat)
    requires Sound(db)
    ensures Curriculum.Sound(db.catalog)
    ensures Todo(db, user, course) == Remaining(db, user, Curriculum.CourseOrder(db.catalog, course))
  {
  }

  lemma MarkIsSound(db: School, user: nat, lesson: nat, now: Time)
    requires Sound(db)
    ensures Sound(MarkComplete(db, user, lesson, true, now).0)
  {
    hide Sound;
    StepKeepsSound(db, MarkOp(user, lesson, true, now), Settings(0, 1, 1));
  }

  lemma MarkFinishesOne(db: School, user: nat, lesson: nat, now: Time)
    requires lesson in db.catalog.lessons
    ensures var after := MarkComplete(db, user, lesson, true, now).0;
            && after.catalog == db.catalog
            && forall l :: IsFinished(after.progress, user, l) <==> IsFinished(db.progress, user, l) || l == lesson
  {
    hide CourseIsComplete;
  }

  lemma CourseOrderIsDistinct(db: School, course: nat)
    requires Sound(db)
    ensures Curriculum.Sound(db.catalog) && Ordering.Distinct(Curriculum.CourseOrder(db.catalog, course))
  {
    hide Curriculum.Sound, Curriculum.CourseOrder;
    Curriculum.CourseOrderListsCourse(db.catalog, course);
    var order := Curriculum.CourseOrder(db.catalog, course);
    forall i, j | 0 <= i < j < |order|
      ensures order[i] != order[j]
    {
      assert Curriculum.Precedes(db.catalog, order[i], order[j]);
    }
  }

  /**
    Following the next lesson ends, visits exactly the unfinished lessons in curriculum order, and leaves
    the course complete with its date on the enrolment.
  */
  lemma {:induction false} FollowingFinishesTheCourse(db: School, user: nat, course: nat, now: Time)
    requires Sound(db) && Curriculum.LessonsOf(db.catalog, course) != {}
    ensures var (after, visited) := Follow(db, user, course, now);
            && visited == Todo(db, user, course)
            && Sound(after) && CourseIsComplete(after, user, course)
            && Taking(user, course) in after.enrollments
            && after.enrollments[Taking(user, course)].completedAt.Some?
    decreases |Todo(db, user, course)|
  {
    hide Sound, Todo, CourseIsComplete, MarkComplete, Curriculum.Precedes, MayComeFirst;
    var todo := Todo(db, user, course);
    if todo == [] {
      NoNextMeansComplete(db, user, course);
      CompletionIsRecorded(db, user, course);
    } else {
      MarkingNextDropsIt(db, user, course, now);
      var after := MarkComplete(db, user, todo[0], true, now).0;
      MarkKeepsCatalog(db, user, todo[0], now);
      FollowingFinishesTheCourse(after, user, course, now);
    }
  }

  lemma MarkKeepsCatalog(db: School, user: nat, lesson: nat, now: Time)
    ensures MarkComplete(db, user, lesson, true, now).0.catalog == db.catalog
  {
    hide CourseIsComplete;
  }

  lemma CompletionIsRecorded(db: School, user: nat, course: nat)
    requires Sound(db) && CourseIsComplete(db, user, course)
    ensures Taking(user, course) in db.enrollments && db.enrollments[Taking(user, course)].completedAt.Some?
  {
    hide CourseIsComplete;
    assert CompletionRecorded(db, user, course);
  }
}
