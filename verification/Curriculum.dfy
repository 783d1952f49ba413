/**
  Sections and lessons of a course: how the services keep a lesson's course equal to its section's, the
  all-or-nothing reorder, and the curriculum order learners see.
*/
module Curriculum {
  import opened Options
  import opened Ordering

  datatype Section = Section(course: nat, position: nat)
  datatype Lesson = Lesson(course: nat, section: nat, slug: string, position: nat)
  datatype Catalog = Catalog(sections: map<nat, Section>, lessons: map<nat, Lesson>)

  datatype Outcome = Done | NotPermitted | IntegrityError | InvalidReorder | NoSuchRow

  // ----- constraints -----

  predicate SamePlace(s: Section, t: Section) {
    s.course == t.course && s.position == t.position
  }

  predicate SameSlot(l: Lesson, m: Lesson) {
    (l.section == m.section && l.position == m.position) || (l.course == m.course && l.slug == m.slug)
  }

  /** The unique constraints on (course, position), (section, position) and (course, slug). */
  predicate Constrained(c: Catalog) {
    && (forall i, j :: i in c.sections && j in c.sections && SamePlace(c.sections[i], c.sections[j]) ==> i == j)
    && (forall i, j :: i in c.lessons && j in c.lessons && SameSlot(c.lessons[i], c.lessons[j]) ==> i == j)
  }

  /** Both parents of a lesson agree. */
  predicate Agrees(c: Catalog, l: Lesson) {
    l.section in c.sections && c.sections[l.section].course == l.course
  }

  ghost predicate Sound(c: Catalog) {
    && Constrained(c)
    && forall id :: id in c.lessons ==> Agrees(c, c.lessons[id])
  }

  // ----- writes -----

  /** A transaction that leaves the tables at `after` commits only when the constraints hold there. */
  function Commit(before: Catalog, after: Catalog): (Catalog, Outcome) {
    if Constrained(after) then (after, Done) else (before, IntegrityError)
  }

  function CreateSection(c: Catalog, course: nat, owner: bool, id: nat, position: nat): (Catalog, Outcome) {
    if !owner then (c, NotPermitted)
    else if id in c.sections then (c, IntegrityError)
    else Commit(c, c.(sections := c.sections[id := Section(course, position)]))
  }

  function UpdateSection(c: Catalog, id: nat, course: nat, owner: bool, position: Option<nat>): (Catalog, Outcome) {
    if id !in c.sections then (c, NoSuchRow)
    else if !owner || c.sections[id].course != course then (c, NotPermitted)
    else
      var p := if position.Some? then position.value else c.sections[id].position;
      Commit(c, c.(sections := c.sections[id := Section(course, p)]))
  }

  function CreateLesson(c: Catalog, course: nat, section: nat, owner: bool, id: nat, slug: string,
                        position: nat): (Catalog, Outcome)
  {
    if section !in c.sections then (c, NoSuchRow)
    else if !owner || c.sections[section].course != course then (c, NotPermitted)
    else if id in c.lessons then (c, IntegrityError)
    else Commit(c, c.(lessons := c.lessons[id := Lesson(course, section, slug, position)]))
  }

  function UpdateLesson(c: Catalog, id: nat, course: nat, owner: bool, section: Option<nat>,
                        slug: Option<string>, position: Option<nat>): (Catalog, Outcome)
  {
    if id !in c.lessons || (section.Some? && section.value !in c.sections) then (c, NoSuchRow)
    else if !owner || c.lessons[id].course != course
            || (section.Some? && c.sections[section.value].course != course) then (c, NotPermitted)
    else
      var was := c.lessons[id];
      var lesson := Lesson(was.course,
                           if section.Some? then section.value else was.section,
                           if slug.Some? then slug.value else was.slug,
                           if position.Some? then position.value else was.position);
      Commit(c, c.(lessons := c.lessons[id := lesson]))
  }

  function SectionsOf(c: Catalog, course: nat): set<nat> {
    set id | id in c.sections && c.sections[id].course == course
  }

  function LessonsIn(c: Catalog, section: nat): set<nat> {
    set id | id in c.lessons && c.lessons[id].section == section
  }

  function LessonsOf(c: Catalog, course: nat): set<nat> {
    set id | id in c.lessons && c.lessons[id].course == course
  }

  /** The payload names every row of `scope` once, and nothing else. */
  predicate NamesExactly(ids: seq<nat>, scope: set<nat>) {
    Distinct(ids) && (set id | id in ids) == scope
  }

  function IndexOf(ids: seq<nat>, id: nat): (i: nat)
    requires id in ids
    ensures i < |ids| && ids[i] == id
  {
    if ids[0] == id then 0 else 1 + IndexOf(ids[1..], id)
  }

  function SectionAt(ids: seq<nat>, id: nat, s: Section): Section {
    if id in ids then s.(position := IndexOf(ids, id) + 1) else s
  }

  function LessonAt(ids: seq<nat>, id: nat, l: Lesson): Lesson {
    if id in ids then l.(position := IndexOf(ids, id) + 1) else l
  }

  function ReorderSections(c: Catalog, course: nat, ids: seq<nat>): (Catalog, Outcome) {
    if !NamesExactly(ids, SectionsOf(c, course)) then (c, InvalidReorder)
    else (c.(sections := map id | id in c.sections :: SectionAt(ids, id, c.sections[id])), Done)
  }

  function ReorderLessons(c: Catalog, section: nat, ids: seq<nat>): (Catalog, Outcome) {
    if !NamesExactly(ids, LessonsIn(c, section)) then (c, InvalidReorder)
    else (c.(lessons := map id | id in c.lessons :: LessonAt(ids, id, c.lessons[id])), Done)
  }

  datatype Op =
    | CreateSectionOp(course: nat, owner: bool, id: nat, position: nat)
    | UpdateSectionOp(id: nat, course: nat, owner: bool, newPosition: Option<nat>)
    | CreateLessonOp(course: nat, section: nat, owner: bool, id: nat, slug: string, position: nat)
    | UpdateLessonOp(id: nat, course: nat, owner: bool, newSection: Option<nat>, newSlug: Option<string>,
                     newPosition: Option<nat>)
    | ReorderSectionsOp(course: nat, ids: seq<nat>)
    | ReorderLessonsOp(section: nat, ids: seq<nat>)

  function Step(c: Catalog, op: Op): (Catalog, Outcome) {
    match op
    case CreateSectionOp(course, owner, id, position) => CreateSection(c, course, owner, id, position)
    case UpdateSectionOp(id, course, owner, position) => UpdateSection(c, id, course, owner, position)
    case CreateLessonOp(course, section, owner, id, slug, position) =>
      CreateLesson(c, course, section, owner, id, slug, position)
    case UpdateLessonOp(id, course, owner, section, slug, position) =>
      UpdateLesson(c, id, course, owner, section, slug, position)
    case ReorderSectionsOp(course, ids) => ReorderSections(c, course, ids)
    case ReorderLessonsOp(section, ids) => ReorderLessons(c, section, ids)
  }

  // ----- the writes in place -----

  class Tables {
    var sections: map<nat, Section>
    var lessons: map<nat, Lesson>

    function View(): Catalog
      reads this
    {
      Catalog(sections, lessons)
    }

    method CreateSectionRow(course: nat, owner: bool, id: nat, position: nat) returns (outcome: Outcome)
      modifies this`sections
      ensures (View(), outcome) == CreateSection(old(View()), course, owner, id, position)
    {
      if !owner {
        return NotPermitted;
      }
      if id in sections || !Constrained(View().(sections := sections[id := Section(course, position)])) {
        return IntegrityError;
      }
      sections := sections[id := Section(course, position)];
      outcome := Done;
    }

    method UpdateSectionRow(id: nat, course: nat, owner: bool, position: Option<nat>) returns (outcome: Outcome)
      modifies this`sections
      ensures (View(), outcome) == UpdateSection(old(View()), id, course, owner, position)
    {
      hide Constrained;
      if id !in sections {
        return NoSuchRow;
      }
      var section := sections[id];
      if !owner || section.course != course {
        return NotPermitted;
      }
      if position.Some? {
        section := section.(position := position.value);
      }
      if !Constrained(View().(sections := sections[id := section])) {
        return IntegrityError;
      }
      sections := sections[id := section];
      outcome := Done;
    }

    method CreateLessonRow(course: nat, section: nat, owner: bool, id: nat, slug: string, position: nat)
      returns (outcome: Outcome)
      modifies this`lessons
      ensures (View(), outcome) == CreateLesson(old(View()), course, section, owner, id, slug, position)
    {
      if section !in sections {
        return NoSuchRow;
      }
      if !owner || sections[section].course != course {
        return NotPermitted;
      }
      var lesson := Lesson(course, section, slug, position);
      if id in lessons || !Constrained(View().(lessons := lessons[id := lesson])) {
        return IntegrityError;
      }
      lessons := lessons[id := lesson];
      outcome := Done;
    }

    method UpdateLessonRow(id: nat, course: nat, owner: bool, section: Option<nat>, slug: Option<string>,
                           position: Option<nat>) returns (outcome: Outcome)
      modifies this`lessons
      ensures (View(), outcome) == UpdateLesson(old(View()), id, course, owner, section, slug, position)
    {
      hide Constrained;
      if id !in lessons || (section.Some? && section.value !in sections) {
        return NoSuchRow;
      }
      var lesson := lessons[id];
      if !owner || lesson.course != course {
        return NotPermitted;
      }
      if section.Some? && sections[section.value].course != course {
        return NotPermitted;
      }
      if section.Some? {
        lesson := lesson.(section := section.value);
      }
      if slug.Some? {
        lesson := lesson.(slug := slug.value);
      }
      if position.Some? {
        lesson := lesson.(position := position.value);
      }
      if !Constrained(View().(lessons := lessons[id := lesson])) {
        return IntegrityError;
      }
      lessons := lessons[id := lesson];
      outcome := Done;
    }

    /** `_apply_order` over the sections of a course: membership first, then one position at a time. */
    method ReorderSectionRows(course: nat, ids: seq<nat>) returns (outcome: Outcome)
      modifies this`sections
      ensures (View(), outcome) == ReorderSections(old(View()), course, ids)
    {
      var rows := SectionsOf(View(), course);
      if !Distinct(ids) || (set id | id in ids) != rows {
        return InvalidReorder;
      }
      ghost var before := sections;
      for i := 0 to |ids|
        invariant sections == map id | id in before :: SectionAt(ids[..i], id, before[id])
      {
        assert ids[i] in rows;
        sections := sections[ids[i] := sections[ids[i]].(position := i + 1)];
        PlacedNext(ids, i);
        forall id | id in before
          ensures SectionAt(ids[..i + 1], id, before[id]) == if id == ids[i] then before[id].(position := i + 1)
                                                             else SectionAt(ids[..i], id, before[id])
        {
          IndexInPrefix(ids, i, id);
        }
      }
      assert ids[..|ids|] == ids;
      outcome := Done;
    }

    /** The same over the lessons of one section. */
    method ReorderLessonRows(section: nat, ids: seq<nat>) returns (outcome: Outcome)
      modifies this`lessons
      ensures (View(), outcome) == ReorderLessons(old(View()), section, ids)
    {
      var rows := LessonsIn(View(), section);
      if !Distinct(ids) || (set id | id in ids) != rows {
        return InvalidReorder;
      }
      ghost var before := lessons;
      for i := 0 to |ids|
        invariant lessons == map id | id in before :: LessonAt(ids[..i], id, before[id])
      {
        assert ids[i] in rows;
        lessons := lessons[ids[i] := lessons[ids[i]].(position := i + 1)];
        PlacedNext(ids, i);
        forall id | id in before
          ensures LessonAt(ids[..i + 1], id, before[id]) == if id == ids[i] then before[id].(position := i + 1)
                                                            else LessonAt(ids[..i], id, before[id])
        {
          IndexInPrefix(ids, i, id);
        }
      }
      assert ids[..|ids|] == ids;
      outcome := Done;
    }
  }

  // ----- positions after a reorder -----

  lemma {:induction false} IndexIsUnique(ids: seq<nat>, i: nat)
    requires Distinct(ids) && i < |ids|
    ensures ids[i] in ids && IndexOf(ids, ids[i]) == i
  {
    if i > 0 {
      assert ids[0] != ids[i];
      assert ids[1..][i - 1] == ids[i];
      IndexIsUnique(ids[1..], i - 1);
    }
  }

  lemma PlacedNext(ids: seq<nat>, i: nat)
    requires Distinct(ids) && i < |ids|
    ensures ids[i] in ids[..i + 1] && IndexOf(ids[..i + 1], ids[i]) == i && ids[i] !in ids[..i]
  {
    assert ids[..i + 1][i] == ids[i];
    IndexIsUnique(ids[..i + 1], i);
  }

  lemma IndexInPrefix(ids: seq<nat>, i: nat, id: nat)
    requires Distinct(ids) && i < |ids|
    ensures id != ids[i] ==> (id in ids[..i + 1] <==> id in ids[..i])
    ensures id in ids[..i] ==> id in ids[..i + 1] && IndexOf(ids[..i + 1], id) == IndexOf(ids[..i], id)
  {
    assert ids[..i + 1] == ids[..i] + [ids[i]];
    if id in ids[..i] {
      var k := IndexOf(ids[..i], id);
      assert ids[..i + 1][k] == id;
      IndexIsUnique(ids[..i + 1], k);
    }
  }

  lemma ReorderSectionsKeepsSound(c: Catalog, course: nat, ids: seq<nat>)
    requires Sound(c)
    ensures Sound(ReorderSections(c, course, ids).0)
  {
    var after := ReorderSections(c, course, ids).0;
    if after != c {
      forall i, j | i in after.sections && j in after.sections && SamePlace(after.sections[i], after.sections[j])
        ensures i == j
      {
        NamedByScope(c, course, ids, i);
        NamedByScope(c, course, ids, j);
        assert i !in ids && j !in ids ==> SamePlace(c.sections[i], c.sections[j]);
      }
      assert after.lessons == c.lessons;
      forall id | id in after.lessons
        ensures Agrees(after, after.lessons[id])
      {
        assert Agrees(c, c.lessons[id]);
      }
    }
  }

  lemma NamedByScope(c: Catalog, course: nat, ids: seq<nat>, id: nat)
    requires NamesExactly(ids, SectionsOf(c, course)) && id in c.sections
    ensures id in ids <==> c.sections[id].course == course
  {
    assert id in ids <==> id in (set x | x in ids);
    assert id in SectionsOf(c, course) <==> c.sections[id].course == course;
  }

  lemma NamedBySection(c: Catalog, section: nat, ids: seq<nat>, id: nat)
    requires NamesExactly(ids, LessonsIn(c, section)) && id in c.lessons
    ensures id in ids <==> c.lessons[id].section == section
  {
    assert id in ids <==> id in (set x | x in ids);
    assert id in LessonsIn(c, section) <==> c.lessons[id].section == section;
  }

  lemma ReorderLessonsKeepsSound(c: Catalog, section: nat, ids: seq<nat>)
    requires Sound(c)
    ensures Sound(ReorderLessons(c, section, ids).0)
  {
    var after := ReorderLessons(c, section, ids).0;
    if after != c {
      forall i, j | i in after.lessons && j in after.lessons && SameSlot(after.lessons[i], after.lessons[j])
        ensures i == j
      {
        NamedBySection(c, section, ids, i);
        NamedBySection(c, section, ids, j);
        assert i != j ==> !SameSlot(c.lessons[i], c.lessons[j]);
      }
      forall id | id in after.lessons
        ensures Agrees(after, after.lessons[id])
      {
        assert Agrees(c, c.lessons[id]);
      }
    }
  }

  lemma UpdateLessonKeepsSound(c: Catalog, id: nat, course: nat, owner: bool, section: Option<nat>,
                               slug: Option<string>, position: Option<nat>)
    requires Sound(c)
    ensures Sound(UpdateLesson(c, id, course, owner, section, slug, position).0)
  {
    hide Constrained;
  }

  /** Every catalogue service keeps the uniqueness rules, and keeps a lesson's course equal to its section's. */
  lemma StepKeepsSound(c: Catalog, op: Op)
    requires Sound(c)
    ensures Sound(Step(c, op).0)
  {
    hide Constrained, UpdateLesson, ReorderSections, ReorderLessons;
    match op
    case UpdateLessonOp(id, course, owner, section, slug, position) =>
      UpdateLessonKeepsSound(c, id, course, owner, section, slug, position);
    case ReorderSectionsOp(course, ids) => ReorderSectionsKeepsSound(c, course, ids);
    case ReorderLessonsOp(section, ids) => ReorderLessonsKeepsSound(c, section, ids);
    case _ =>
  }

  /** No service deletes a lesson or moves it to another course. */
  lemma StepKeepsCourses(c: Catalog, op: Op, id: nat)
    requires id in c.lessons
    ensures id in Step(c, op).0.lessons && Step(c, op).0.lessons[id].course == c.lessons[id].course
  {
    hide Constrained, NamesExactly;
  }

  // ----- which writes are accepted, and what they leave -----

  /** No section but `id` holds this place. */
  predicate PlaceFree(c: Catalog, id: nat, course: nat, position: nat) {
    forall other :: other in c.sections && other != id ==>
      !(c.sections[other].course == course && c.sections[other].position == position)
  }

  /** No lesson but `id` holds this position in the section, or this slug in the course. */
  predicate SlotFree(c: Catalog, id: nat, l: Lesson) {
    forall other :: other in c.lessons && other != id ==>
      !(c.lessons[other].section == l.section && c.lessons[other].position == l.position)
      && !(c.lessons[other].course == l.course && c.lessons[other].slug == l.slug)
  }

  lemma SectionWriteCommits(c: Catalog, id: nat, s: Section)
    requires Constrained(c)
    ensures Constrained(c.(sections := c.sections[id := s])) <==> PlaceFree(c, id, s.course, s.position)
  {
    var after := c.(sections := c.sections[id := s]);
    if Constrained(after) {
      forall other | other in c.sections && other != id
        ensures !(c.sections[other].course == s.course && c.sections[other].position == s.position)
      {
        assert !SamePlace(after.sections[other], after.sections[id]);
      }
    }
    if PlaceFree(c, id, s.course, s.position) {
      forall i, j | i in after.sections && j in after.sections && SamePlace(after.sections[i], after.sections[j])
        ensures i == j
      {
        assert i != id && j != id ==> SamePlace(c.sections[i], c.sections[j]);
      }
      assert after.lessons == c.lessons;
    }
  }

  lemma LessonWriteCommits(c: Catalog, id: nat, l: Lesson)
    requires Constrained(c)
    ensures Constrained(c.(lessons := c.lessons[id := l])) <==> SlotFree(c, id, l)
  {
    var after := c.(lessons := c.lessons[id := l]);
    if Constrained(after) {
      forall other | other in c.lessons && other != id
        ensures !SameSlot(c.lessons[other], l)
      {
        assert !SameSlot(after.lessons[other], after.lessons[id]);
      }
    }
    if SlotFree(c, id, l) {
      forall i, j | i in after.lessons && j in after.lessons && SameSlot(after.lessons[i], after.lessons[j])
        ensures i == j
      {
        assert i != id && j != id ==> SameSlot(c.lessons[i], c.lessons[j]);
      }
      assert after.sections == c.sections;
    }
  }

  /** A section is created by the course's owner alone, at a place no other section holds; refusals change nothing. */
  lemma CreateSectionExactly(c: Catalog, course: nat, owner: bool, id: nat, position: nat)
    requires Sound(c)
    ensures var (after, outcome) := CreateSection(c, course, owner, id, position);
            && (outcome == Done <==> owner && id !in c.sections && PlaceFree(c, id, course, position))
            && (outcome == Done ==> after.lessons == c.lessons && after.sections.Keys == c.sections.Keys + {id}
                                    && after.sections[id].course == course && after.sections[id].position == position
                                    && forall x :: x in c.sections ==> after.sections[x] == c.sections[x])
            && (outcome != Done ==> after == c)
  {
    hide Constrained, PlaceFree;
    SectionWriteCommits(c, id, Section(course, position));
  }

  lemma UpdateSectionExactly(c: Catalog, id: nat, course: nat, owner: bool, position: Option<nat>)
    requires Sound(c)
    ensures var (after, outcome) := UpdateSection(c, id, course, owner, position);
            && (outcome == Done <==> owner && id in c.sections && c.sections[id].course == course
                                     && (position.Some? ==> PlaceFree(c, id, course, position.value)))
            && (outcome == Done ==> after.lessons == c.lessons && after.sections.Keys == c.sections.Keys
                                    && after.sections[id].course == course
                                    && (position.Some? ==> after.sections[id].position == position.value)
                                    && (position.None? ==> after == c)
                                    && forall x :: x in c.sections && x != id ==> after.sections[x] == c.sections[x])
            && (outcome != Done ==> after == c)
  {
    if id in c.sections && c.sections[id].course == course {
      if position.None? {
        assert c.sections[id := c.sections[id]] == c.sections;
      } else {
        SectionWriteCommits(c, id, Section(course, position.value));
      }
    }
    hide Constrained, PlaceFree;
  }

  /** A lesson is created by the owner, in a section of the named course, with a slot and slug of its own. */
  lemma CreateLessonExactly(c: Catalog, course: nat, section: nat, owner: bool, id: nat, slug: string, position: nat)
    requires Sound(c)
    ensures var (after, outcome) := CreateLesson(c, course, section, owner, id, slug, position);
            && (outcome == Done <==> owner && section in c.sections && c.sections[section].course == course
                                     && id !in c.lessons && SlotFree(c, id, Lesson(course, section, slug, position)))
            && (outcome == Done ==> after.sections == c.sections && after.lessons.Keys == c.lessons.Keys + {id}
                                    && after.lessons[id].course == course && after.lessons[id].section == section
                                    && after.lessons[id].slug == slug && after.lessons[id].position == position
                                    && forall x :: x in c.lessons ==> after.lessons[x] == c.lessons[x])
            && (outcome != Done ==> after == c)
  {
    hide Constrained, SlotFree;
    LessonWriteCommits(c, id, Lesson(course, section, slug, position));
  }

  /** Each given field is taken and each omitted one kept: the merged row is what must not clash. */
  predicate Merges(was: Lesson, l: Lesson, section: Option<nat>, slug: Option<string>, position: Option<nat>) {
    && l.course == was.course
    && (section.Some? ==> l.section == section.value) && (section.None? ==> l.section == was.section)
    && (slug.Some? ==> l.slug == slug.value) && (slug.None? ==> l.slug == was.slug)
    && (position.Some? ==> l.position == position.value) && (position.None? ==> l.position == was.position)
  }

  lemma UpdateLessonExactly(c: Catalog, id: nat, course: nat, owner: bool, section: Option<nat>,
                            slug: Option<string>, position: Option<nat>, l: Lesson)
    requires Sound(c) && (id in c.lessons ==> Merges(c.lessons[id], l, section, slug, position))
    ensures var (after, outcome) := UpdateLesson(c, id, course, owner, section, slug, position);
            && (outcome == Done <==>
                  && owner && id in c.lessons && c.lessons[id].course == course
                  && (section.Some? ==> section.value in c.sections && c.sections[section.value].course == course)
                  && SlotFree(c, id, l))
            && (outcome == Done ==> after.sections == c.sections && after.lessons == c.lessons[id := l])
            && (outcome != Done ==> after == c)
  {
    hide Constrained, SlotFree;
    LessonWriteCommits(c, id, l);
  }

  /** A reorder is accepted exactly when it names every row of its scope, once, and nothing else. */
  lemma ReorderAcceptedExactly(c: Catalog, scope: nat, ids: seq<nat>)
    ensures ReorderSections(c, scope, ids).1 == Done <==>
            && (forall i, j :: 0 <= i < j < |ids| ==> ids[i] != ids[j])
            && (forall id :: id in ids <==> id in c.sections && c.sections[id].course == scope)
    ensures ReorderLessons(c, scope, ids).1 == Done <==>
            && (forall i, j :: 0 <= i < j < |ids| ==> ids[i] != ids[j])
            && (forall id :: id in ids <==> id in c.lessons && c.lessons[id].section == scope)
    ensures ReorderSections(c, scope, ids).1 != Done ==> ReorderSections(c, scope, ids).0 == c
    ensures ReorderLessons(c, scope, ids).1 != Done ==> ReorderLessons(c, scope, ids).0 == c
  {
    var named := set id | id in ids;
    assert forall id :: id in ids <==> id in named;
    assert forall id :: id in SectionsOf(c, scope) <==> id in c.sections && c.sections[id].course == scope;
    assert forall id :: id in LessonsIn(c, scope) <==> id in c.lessons && c.lessons[id].section == scope;
  }

  /** Which refusal a write gets: what is missing, then who is asking and about which course, then the constraints. */
  lemma RefusalsSayWhy(c: Catalog, op: Op)
    requires Step(c, op).1 != Done
    ensures Step(c, op).1 ==
            match op {
              case CreateSectionOp(_, owner, _, _) => if owner then IntegrityError else NotPermitted
              case UpdateSectionOp(id, course, owner, _) =>
                if id !in c.sections then NoSuchRow
                else if owner && c.sections[id].course == course then IntegrityError
                else NotPermitted
              case CreateLessonOp(course, section, owner, _, _, _) =>
                if section !in c.sections then NoSuchRow
                else if owner && c.sections[section].course == course then IntegrityError
                else NotPermitted
              case UpdateLessonOp(id, course, owner, section, _, _) =>
                if id !in c.lessons || (section.Some? && section.value !in c.sections) then NoSuchRow
                else if owner && c.lessons[id].course == course
                        && (section.Some? ==> c.sections[section.value].course == course) then IntegrityError
                else NotPermitted
              case ReorderSectionsOp(_, _) => InvalidReorder
              case ReorderLessonsOp(_, _) => InvalidReorder
            }
  {
    hide Constrained, NamesExactly;
  }

  // ----- curriculum order -----

  ghost function SectionsInOrder(c: Catalog, course: nat): (xs: seq<nat>)
    requires Sound(c)
    ensures forall x :: x in xs <==> x in SectionsOf(c, course)
    ensures forall i, j :: 0 <= i < j < |xs| ==> SectionPosition(c, xs[i]) < SectionPosition(c, xs[j])
  {
    SectionPositionsUnique(c, course);
    ArrangeBy(SectionsOf(c, course), id => SectionPosition(c, id))
  }

  function SectionPosition(c: Catalog, id: nat): nat {
    if id in c.sections then c.sections[id].position else 0
  }

  function LessonPosition(c: Catalog, id: nat): nat {
    if id in c.lessons then c.lessons[id].position else 0
  }

  lemma SectionPositionsUnique(c: Catalog, course: nat)
    requires Sound(c)
    ensures forall x, y | x in SectionsOf(c, course) && y in SectionsOf(c, course) &&
                          SectionPosition(c, x) == SectionPosition(c, y) :: x == y
  {
    forall x, y | x in SectionsOf(c, course) && y in SectionsOf(c, course)
                  && SectionPosition(c, x) == SectionPosition(c, y)
      ensures x == y
    {
      assert SamePlace(c.sections[x], c.sections[y]);
    }
  }

  ghost function LessonsInOrder(c: Catalog, section: nat): (xs: seq<nat>)
    requires Sound(c)
    ensures forall x :: x in xs <==> x in LessonsIn(c, section)
    ensures forall i, j :: 0 <= i < j < |xs| ==> LessonPosition(c, xs[i]) < LessonPosition(c, xs[j])
  {
    LessonPositionsUnique(c, section);
    ArrangeBy(LessonsIn(c, section), id => LessonPosition(c, id))
  }

  lemma LessonPositionsUnique(c: Catalog, section: nat)
    requires Sound(c)
    ensures forall x, y | x in LessonsIn(c, section) && y in LessonsIn(c, section) &&
                          LessonPosition(c, x) == LessonPosition(c, y) :: x == y
  {
    forall x, y | x in LessonsIn(c, section) && y in LessonsIn(c, section)
                  && LessonPosition(c, x) == LessonPosition(c, y)
      ensures x == y
    {
      assert SameSlot(c.lessons[x], c.lessons[y]);
    }
  }

  /** `order_by("section__position", "position")`. */
  ghost predicate Precedes(c: Catalog, x: nat, y: nat) {
    && x in c.lessons && y in c.lessons
    && var s, t := SectionPosition(c, c.lessons[x].section), SectionPosition(c, c.lessons[y].section);
       s < t || (s == t && LessonPosition(c, x) < LessonPosition(c, y))
  }

  /** The lessons of the listed sections, one section after the other. */
  ghost function Concatenated(c: Catalog, sections: seq<nat>): seq<nat>
    requires Sound(c)
  {
    if sections == [] then [] else
      Concatenated(c, sections[..|sections| - 1]) + LessonsInOrder(c, sections[|sections| - 1])
  }

  ghost predicate SectionsAscend(c: Catalog, sections: seq<nat>) {
    && (forall i :: 0 <= i < |sections| ==> sections[i] in c.sections)
    && forall i, j :: 0 <= i < j < |sections| ==> SectionPosition(c, sections[i]) < SectionPosition(c, sections[j])
  }

  lemma {:induction false} ConcatenatedMembers(c: Catalog, sections: seq<nat>, x: nat)
    requires Sound(c)
    ensures x in Concatenated(c, sections) <==> x in c.lessons && c.lessons[x].section in sections
  {
    if sections != [] {
      var n := |sections| - 1;
      ConcatenatedMembers(c, sections[..n], x);
      assert sections == sections[..n] + [sections[n]];
      assert x in LessonsInOrder(c, sections[n]) <==> x in c.lessons && c.lessons[x].section == sections[n];
    }
  }

  lemma {:induction false} ConcatenatedIsSorted(c: Catalog, sections: seq<nat>)
    requires Sound(c) && SectionsAscend(c, sections)
    ensures Sorted(Concatenated(c, sections), (x, y) => Precedes(c, x, y))
  {
    hide Sound;
    if sections != [] {
      var n := |sections| - 1;
      var init, last := sections[..n], sections[n];
      ConcatenatedIsSorted(c, init);
      var a, b := Concatenated(c, init), LessonsInOrder(c, last);
      forall i, j | 0 <= i < j < |a + b|
        ensures Precedes(c, (a + b)[i], (a + b)[j])
      {
        var x, y := (a + b)[i], (a + b)[j];
        if j < |a| {
          assert x == a[i] && y == a[j];
        } else if i < |a| {
          assert x in a && y in b;
          ConcatenatedMembers(c, init, x);
          var k :| 0 <= k < n && init[k] == c.lessons[x].section;
          assert SectionPosition(c, sections[k]) < SectionPosition(c, sections[n]);
        } else {
          assert x in b && y in b;
        }
      }
    }
  }

  /** The curriculum as a whole: every section's lessons, in the order of the sections. */
  ghost function CourseOrder(c: Catalog, course: nat): seq<nat>
    requires Sound(c)
  {
    Concatenated(c, SectionsInOrder(c, course))
  }

  /** What `lessons_for_course` may return: its lessons, by section position and then their own. */
  ghost predicate ListsCourse(c: Catalog, course: nat, xs: seq<nat>) {
    && (forall x :: x in xs <==> x in LessonsOf(c, course))
    && Sorted(xs, (x, y) => Precedes(c, x, y))
  }

  lemma CourseOrderListsCourse(c: Catalog, course: nat)
    requires Sound(c)
    ensures ListsCourse(c, course, CourseOrder(c, course))
  {
    hide Concatenated;
    var sections := SectionsInOrder(c, course);
    assert SectionsAscend(c, sections) by {
      assert forall i :: 0 <= i < |sections| ==> sections[i] in sections;
    }
    ConcatenatedIsSorted(c, sections);
    forall x
      ensures x in CourseOrder(c, course) <==> x in LessonsOf(c, course)
    {
      ConcatenatedMembers(c, sections, x);
      if x in c.lessons {
        assert Agrees(c, c.lessons[x]);
      }
    }
  }

  /** The one query over the joined tables gives exactly the sections' lists one after the other. */
  lemma CourseWideOrderIsTheConcatenation(c: Catalog, course: nat, xs: seq<nat>)
    requires Sound(c)
    ensures ListsCourse(c, course, xs) <==> xs == CourseOrder(c, course)
  {
    hide CourseOrder, Sound;
    CourseOrderListsCourse(c, course);
    if ListsCourse(c, course, xs) {
      assert SameMembers(xs, CourseOrder(c, course));
      SortedIsUnique(xs, CourseOrder(c, course), (x, y) => Precedes(c, x, y));
    }
  }

  // ----- what a reorder does to the order -----

  lemma ReorderedSectionsAreInTheirOrder(c: Catalog, course: nat, ids: seq<nat>)
    requires Sound(c) && NamesExactly(ids, SectionsOf(c, course))
    ensures var after := ReorderSections(c, course, ids).0;
            && Sound(after) && SectionsInOrder(after, course) == ids
            && (forall i :: 0 <= i < |ids| ==> ids[i] in c.sections && ids[i] in after.sections)
            && (forall i :: 0 <= i < |ids| ==> after.sections[ids[i]] == c.sections[ids[i]].(position := i + 1))
            && after.sections.Keys == c.sections.Keys && after.lessons == c.lessons
            && (forall id :: id in c.sections && id !in ids ==> after.sections[id] == c.sections[id])
  {
    var after := ReorderSections(c, course, ids).0;
    ReorderSectionsKeepsSound(c, course, ids);
    hide Sound;
    var less := (x: nat, y: nat) => SectionPosition(after, x) < SectionPosition(after, y);
    forall i | 0 <= i < |ids|
      ensures ids[i] in c.sections && ids[i] in after.sections
      ensures after.sections[ids[i]] == c.sections[ids[i]].(position := i + 1)
    {
      IndexIsUnique(ids, i);
      assert ids[i] in (set x | x in ids);
      assert ids[i] in SectionsOf(c, course);
    }
    assert Sorted(ids, less);
    assert Sorted(SectionsInOrder(after, course), less);
    assert SectionsOf(after, course) == SectionsOf(c, course);
    forall x
      ensures x in ids <==> x in SectionsInOrder(after, course)
    {
      assert x in ids <==> x in (set y | y in ids);
    }
    SortedIsUnique(ids, SectionsInOrder(after, course), less);
  }

  lemma ReorderedLessonsAreInTheirOrder(c: Catalog, section: nat, ids: seq<nat>)
    requires Sound(c) && NamesExactly(ids, LessonsIn(c, section))
    ensures var after := ReorderLessons(c, section, ids).0;
            && Sound(after) && LessonsInOrder(after, section) == ids
            && (forall i :: 0 <= i < |ids| ==> ids[i] in c.lessons && ids[i] in after.lessons)
            && (forall i :: 0 <= i < |ids| ==> after.lessons[ids[i]] == c.lessons[ids[i]].(position := i + 1))
            && after.lessons.Keys == c.lessons.Keys && after.sections == c.sections
            && (forall id :: id in c.lessons && id !in ids ==> after.lessons[id] == c.lessons[id])
  {
    var after := ReorderLessons(c, section, ids).0;
    ReorderLessonsKeepsSound(c, section, ids);
    hide Sound;
    var less := (x: nat, y: nat) => LessonPosition(after, x) < LessonPosition(after, y);
    forall i | 0 <= i < |ids|
      ensures ids[i] in c.lessons && ids[i] in after.lessons
      ensures after.lessons[ids[i]] == c.lessons[ids[i]].(position := i + 1)
    {
      IndexIsUnique(ids, i);
      assert ids[i] in (set x | x in ids);
      assert ids[i] in LessonsIn(c, section);
    }
    assert Sorted(ids, less);
    assert Sorted(LessonsInOrder(after, section), less);
    assert LessonsIn(after, section) == LessonsIn(c, section);
    forall x
      ensures x in ids <==> x in LessonsInOrder(after, section)
    {
      assert x in ids <==> x in (set y | y in ids);
    }
    SortedIsUnique(ids, LessonsInOrder(after, section), less);
  }

  /** Reordering one section moves no lesson of another. */
  lemma OtherSectionsKeepTheirOrder(c: Catalog, section: nat, ids: seq<nat>, other: nat)
    requires Sound(c) && NamesExactly(ids, LessonsIn(c, section)) && other != section
    ensures var after := ReorderLessons(c, section, ids).0;
            Sound(after) && LessonsInOrder(after, other) == LessonsInOrder(c, other)
  {
    var after := ReorderLessons(c, section, ids).0;
    ReorderLessonsKeepsSound(c, section, ids);
    LessonsElsewhereStay(c, section, ids, other);
    hide Sound, ReorderLessons, NamesExactly;
    var less := (x: nat, y: nat) => LessonPosition(c, x) < LessonPosition(c, y);
    var xs, ys := LessonsInOrder(after, other), LessonsInOrder(c, other);
    assert forall i :: 0 <= i < |xs| ==> xs[i] in xs && xs[i] in LessonsIn(c, other);
    assert Sorted(xs, less) && Sorted(ys, less);
    SortedIsUnique(xs, ys, less);
  }

  lemma LessonsElsewhereStay(c: Catalog, section: nat, ids: seq<nat>, other: nat)
    requires NamesExactly(ids, LessonsIn(c, section)) && other != section
    ensures var after := ReorderLessons(c, section, ids).0;
            && LessonsIn(after, other) == LessonsIn(c, other)
            && forall id :: id in LessonsIn(c, other) ==> LessonPosition(after, id) == LessonPosition(c, id)
  {
    forall id | id in c.lessons && c.lessons[id].section == other
      ensures id !in ids
    {
      NamedBySection(c, section, ids, id);
    }
  }

  /** Nor does it move a section: so the course order changes in that section's stretch only. */
  lemma SectionsStayWhenLessonsMove(c: Catalog, section: nat, ids: seq<nat>, course: nat)
    requires Sound(c) && NamesExactly(ids, LessonsIn(c, section))
    ensures var after := ReorderLessons(c, section, ids).0;
            Sound(after) && SectionsInOrder(after, course) == SectionsInOrder(c, course)
  {
    var after := ReorderLessons(c, section, ids).0;
    ReorderLessonsKeepsSound(c, section, ids);
    assert after.sections == c.sections;
    hide Sound, ReorderLessons, NamesExactly;
    var before := (x: nat, y: nat) => SectionPosition(c, x) < SectionPosition(c, y);
    assert Sorted(SectionsInOrder(after, course), before) && Sorted(SectionsInOrder(c, course), before);
    assert SectionsOf(after, course) == SectionsOf(c, course);
    SortedIsUnique(SectionsInOrder(after, course), SectionsInOrder(c, course), before);
  }

  // ----- the states the loop passes through -----

  /** The tables after the loop has placed the first `k` ids. */
  function SectionsMidway(c: Catalog, ids: seq<nat>, k: nat): Catalog
    requires k <= |ids|
  {
    c.(sections := map id | id in c.sections :: SectionAt(ids[..k], id, c.sections[id]))
  }

  function LessonsMidway(c: Catalog, ids: seq<nat>, k: nat): Catalog
    requires k <= |ids|
  {
    c.(lessons := map id | id in c.lessons :: LessonAt(ids[..k], id, c.lessons[id]))
  }

  /** The place given to `ids[i]` is still held by `ids[j]`, later in the list. */
  predicate TakesPlaceOf(ids: seq<nat>, positions: map<nat, nat>, i: nat, j: nat) {
    i < j < |ids| && ids[j] in positions && positions[ids[j]] == i + 1
  }

  predicate TakesHeldPlace(ids: seq<nat>, positions: map<nat, nat>) {
    exists i, j :: 0 <= i < j < |ids| && TakesPlaceOf(ids, positions, i, j)
  }

  function SectionPositions(c: Catalog): map<nat, nat> {
    map id | id in c.sections :: c.sections[id].position
  }

  function LessonPositions(c: Catalog): map<nat, nat> {
    map id | id in c.lessons :: c.lessons[id].position
  }

  lemma Placed(ids: seq<nat>, k: nat, x: nat)
    requires Distinct(ids) && k <= |ids| && x in ids
    ensures x in ids[..k] <==> IndexOf(ids, x) < k
    ensures x in ids[..k] ==> IndexOf(ids[..k], x) == IndexOf(ids, x)
  {
    var i := IndexOf(ids, x);
    if i < k {
      assert ids[..k][i] == x;
      IndexIsUnique(ids[..k], i);
    }
    if x in ids[..k] {
      var m := IndexOf(ids[..k], x);
      assert ids[m] == x;
      IndexIsUnique(ids, m);
    }
  }

  /** The two that clash midway: one placed, the other still waiting. */
  lemma LessonClash(c: Catalog, section: nat, ids: seq<nat>, k: nat, x: nat, y: nat)
    requires Sound(c) && NamesExactly(ids, LessonsIn(c, section)) && k <= |ids|
    requires x in c.lessons && y in c.lessons && x != y
    requires SameSlot(LessonsMidway(c, ids, k).lessons[x], LessonsMidway(c, ids, k).lessons[y])
    ensures TakesHeldPlace(ids, LessonPositions(c))
  {
    hide IndexOf;
    assert !SameSlot(c.lessons[x], c.lessons[y]);
    NamedBySection(c, section, ids, x);
    NamedBySection(c, section, ids, y);
    if x in ids && y in ids {
      Placed(ids, k, x);
      Placed(ids, k, y);
      var i, j := IndexOf(ids, x), IndexOf(ids, y);
      if i < k <= j {
        assert TakesPlaceOf(ids, LessonPositions(c), i, j);
      } else if j < k <= i {
        assert TakesPlaceOf(ids, LessonPositions(c), j, i);
      }
    } else {
      NotInPrefix(ids, k, x);
      NotInPrefix(ids, k, y);
    }
  }

  lemma NotInPrefix(ids: seq<nat>, k: nat, x: nat)
    requires k <= |ids|
    ensures x in ids[..k] ==> x in ids
  {
  }

  /**
    The row-by-row loop over a section's lessons passes through a state the unique constraint forbids exactly
    when some id takes a place that an id later in the list still holds; the finished reorder never does.
  */
  lemma LessonLoopClashesExactly(c: Catalog, section: nat, ids: seq<nat>)
    requires Sound(c) && NamesExactly(ids, LessonsIn(c, section))
    ensures (exists k :: 0 <= k <= |ids| && !Constrained(LessonsMidway(c, ids, k))) <==>
            TakesHeldPlace(ids, LessonPositions(c))
    ensures Sound(ReorderLessons(c, section, ids).0)
  {
    hide IndexOf, LessonsMidway, LessonPositions, Sound;
    ReorderLessonsKeepsSound(c, section, ids);
    if k :| 0 <= k <= |ids| && !Constrained(LessonsMidway(c, ids, k)) {
      LessonsClashMidway(c, section, ids, k);
    }
    if TakesHeldPlace(ids, LessonPositions(c)) {
      var i, j :| 0 <= i < j < |ids| && TakesPlaceOf(ids, LessonPositions(c), i, j);
      LessonTakesHeldPlace(c, section, ids, i, j);
      assert !Constrained(LessonsMidway(c, ids, i + 1));
    }
  }

  lemma LessonsClashMidway(c: Catalog, section: nat, ids: seq<nat>, k: nat)
    requires Sound(c) && NamesExactly(ids, LessonsIn(c, section)) && k <= |ids|
    requires !Constrained(LessonsMidway(c, ids, k))
    ensures TakesHeldPlace(ids, LessonPositions(c))
  {
    hide IndexOf, LessonAt, SameSlot, TakesHeldPlace;
    var midway := LessonsMidway(c, ids, k);
    var x, y :| x in midway.lessons && y in midway.lessons && SameSlot(midway.lessons[x], midway.lessons[y]) && x != y;
    LessonClash(c, section, ids, k, x, y);
  }

  lemma LessonTakesHeldPlace(c: Catalog, section: nat, ids: seq<nat>, i: nat, j: nat)
    requires Sound(c) && NamesExactly(ids, LessonsIn(c, section)) && i < j < |ids|
    requires TakesPlaceOf(ids, LessonPositions(c), i, j)
    ensures !Constrained(LessonsMidway(c, ids, i + 1))
  {
    hide IndexOf;
    var x, y := ids[i], ids[j];
    assert x in (set z | z in ids) && y in (set z | z in ids);
    assert x in LessonsIn(c, section) && y in LessonsIn(c, section);
    IndexIsUnique(ids, i);
    IndexIsUnique(ids, j);
    Placed(ids, i + 1, x);
    Placed(ids, i + 1, y);
    var midway := LessonsMidway(c, ids, i + 1);
    assert SameSlot(midway.lessons[x], midway.lessons[y]);
  }

  lemma SectionClash(c: Catalog, course: nat, ids: seq<nat>, k: nat, x: nat, y: nat)
    requires Sound(c) && NamesExactly(ids, SectionsOf(c, course)) && k <= |ids|
    requires x in c.sections && y in c.sections && x != y
    requires SamePlace(SectionsMidway(c, ids, k).sections[x], SectionsMidway(c, ids, k).sections[y])
    ensures TakesHeldPlace(ids, SectionPositions(c))
  {
    hide IndexOf;
    assert !SamePlace(c.sections[x], c.sections[y]);
    NamedByScope(c, course, ids, x);
    NamedByScope(c, course, ids, y);
    if x in ids && y in ids {
      Placed(ids, k, x);
      Placed(ids, k, y);
      var i, j := IndexOf(ids, x), IndexOf(ids, y);
      if i < k <= j {
        assert TakesPlaceOf(ids, SectionPositions(c), i, j);
      } else if j < k <= i {
        assert TakesPlaceOf(ids, SectionPositions(c), j, i);
      }
    } else {
      NotInPrefix(ids, k, x);
      NotInPrefix(ids, k, y);
    }
  }

  /** The same over the sections of a course. */
  lemma SectionLoopClashesExactly(c: Catalog, course: nat, ids: seq<nat>)
    requires Sound(c) && NamesExactly(ids, SectionsOf(c, course))
    ensures (exists k :: 0 <= k <= |ids| && !Constrained(SectionsMidway(c, ids, k))) <==>
            TakesHeldPlace(ids, SectionPositions(c))
    ensures Sound(ReorderSections(c, course, ids).0)
  {
    hide IndexOf, SectionsMidway, SectionPositions, Sound;
    ReorderSectionsKeepsSound(c, course, ids);
    if k :| 0 <= k <= |ids| && !Constrained(SectionsMidway(c, ids, k)) {
      SectionsClashMidway(c, course, ids, k);
    }
    if TakesHeldPlace(ids, SectionPositions(c)) {
      var i, j :| 0 <= i < j < |ids| && TakesPlaceOf(ids, SectionPositions(c), i, j);
      SectionTakesHeldPlace(c, course, ids, i, j);
      assert !Constrained(SectionsMidway(c, ids, i + 1));
    }
  }

  lemma SectionsClashMidway(c: Catalog, course: nat, ids: seq<nat>, k: nat)
    requires Sound(c) && NamesExactly(ids, SectionsOf(c, course)) && k <= |ids|
    requires !Constrained(SectionsMidway(c, ids, k))
    ensures TakesHeldPlace(ids, SectionPositions(c))
  {
    hide IndexOf, SectionAt, SamePlace, TakesHeldPlace;
    var midway := SectionsMidway(c, ids, k);
    var x, y :| x in midway.sections && y in midway.sections && SamePlace(midway.sections[x], midway.sections[y])
                && x != y;
    SectionClash(c, course, ids, k, x, y);
  }

  lemma SectionTakesHeldPlace(c: Catalog, course: nat, ids: seq<nat>, i: nat, j: nat)
    requires Sound(c) && NamesExactly(ids, SectionsOf(c, course)) && i < j < |ids|
    requires TakesPlaceOf(ids, SectionPositions(c), i, j)
    ensures !Constrained(SectionsMidway(c, ids, i + 1))
  {
    hide IndexOf;
    var x, y := ids[i], ids[j];
    assert x in (set z | z in ids) && y in (set z | z in ids);
    assert x in SectionsOf(c, course) && y in SectionsOf(c, course);
    IndexIsUnique(ids, i);
    IndexIsUnique(ids, j);
    Placed(ids, i + 1, x);
    Placed(ids, i + 1, y);
    var midway := SectionsMidway(c, ids, i + 1);
    assert SamePlace(midway.sections[x], midway.sections[y]);
  }
}
