/**
  A course's passage through review: the publication services, the trail the instructor reads, and the
  administrative audit rows, over every run.
*/
module Publication {
  import opened Options

  type Time = int

  datatype Status = Draft | InReview | Published | Archived
  datatype Action = Submitted | Approved | Rejected | ChangesRequested
  datatype AuditAction = CourseApproved | CourseRejected | CourseChangesRequested

  datatype Course = Course(status: Status, publishedAt: Option<Time>, trail: seq<Action>, audit: seq<AuditAction>)

  datatype Outcome = Done | NotPermitted | InvalidTransition

  const ALLOWED_TRANSITIONS: set<(Status, Status)> := {
    (Draft, InReview), (InReview, Published), (InReview, Draft), (Published, Archived), (Archived, Draft)
  }

  const AUDIT_FOR_REVIEW_ACTION: map<Action, AuditAction> := map[
    Rejected := CourseRejected, ChangesRequested := CourseChangesRequested
  ]

  datatype Op =
    | Submit(owner: bool)
    | Approve(administrator: bool, now: Time)
    | Return(administrator: bool, changes: bool)
    | Archive(administrator: bool)

  function Step(c: Course, op: Op): (Course, Outcome) {
    match op
    case Submit(owner) =>
      if !owner then (c, NotPermitted)
      else if (c.status, InReview) !in ALLOWED_TRANSITIONS then (c, InvalidTransition)
      else (c.(status := InReview, trail := c.trail + [Submitted]), Done)
    case Approve(administrator, now) =>
      if !administrator then (c, NotPermitted)
      else if (c.status, Published) !in ALLOWED_TRANSITIONS then (c, InvalidTransition)
      else (Course(Published, Some(now), c.trail + [Approved], c.audit + [CourseApproved]), Done)
    case Return(administrator, changes) =>
      if !administrator then (c, NotPermitted)
      else if (c.status, Draft) !in ALLOWED_TRANSITIONS then (c, InvalidTransition)
      else
        var action := if changes then ChangesRequested else Rejected;
        (Course(Draft, None, c.trail + [action], c.audit + [AUDIT_FOR_REVIEW_ACTION[action]]), Done)
    case Archive(administrator) =>
      if !administrator then (c, NotPermitted)
      else if (c.status, Archived) !in ALLOWED_TRANSITIONS then (c, InvalidTransition)
      else (c.(status := Archived, publishedAt := None), Done)
  }

  const NEW_COURSE := Course(Draft, None, [], [])

  function Run(ops: seq<Op>): Course {
    if ops == [] then NEW_COURSE else Step(Run(ops[..|ops| - 1]), ops[|ops| - 1]).0
  }

  class CourseRow {
    var status: Status
    var publishedAt: Option<Time>
    var trail: seq<Action>
    var audit: seq<AuditAction>

    function View(): Course
      reads this
    {
      Course(status, publishedAt, trail, audit)
    }

    constructor ()
      ensures View() == NEW_COURSE
    {
      status, publishedAt, trail, audit := Draft, None, [], [];
    }

    method SubmitForReview(owner: bool) returns (outcome: Outcome)
      modifies this
      ensures (View(), outcome) == Step(old(View()), Submit(owner))
    {
      if !owner {
        return NotPermitted;
      }
      if (status, InReview) !in ALLOWED_TRANSITIONS {
        return InvalidTransition;
      }
      status := InReview;
      trail := trail + [Submitted];
      outcome := Done;
    }

    method ApproveCourse(administrator: bool, now: Time) returns (outcome: Outcome)
      modifies this
      ensures (View(), outcome) == Step(old(View()), Approve(administrator, now))
    {
      if !administrator {
        return NotPermitted;
      }
      if (status, Published) !in ALLOWED_TRANSITIONS {
        return InvalidTransition;
      }
      status := Published;
      publishedAt := Some(now);
      trail := trail + [Approved];
      audit := audit + [CourseApproved];
      outcome := Done;
    }

    method ReturnToDraft(administrator: bool, action: Action) returns (outcome: Outcome)
      requires action in AUDIT_FOR_REVIEW_ACTION
      modifies this
      ensures (View(), outcome) == Step(old(View()), Return(administrator, action == ChangesRequested))
    {
      if !administrator {
        return NotPermitted;
      }
      if (status, Draft) !in ALLOWED_TRANSITIONS {
        return InvalidTransition;
      }
      status := Draft;
      publishedAt := None;
      trail := trail + [action];
      audit := audit + [AUDIT_FOR_REVIEW_ACTION[action]];
      outcome := Done;
    }

    method Reject(administrator: bool) returns (outcome: Outcome)
      modifies this
      ensures (View(), outcome) == Step(old(View()), Return(administrator, false))
    {
      outcome := ReturnToDraft(administrator, Rejected);
    }

    method RequestChanges(administrator: bool) returns (outcome: Outcome)
      modifies this
      ensures (View(), outcome) == Step(old(View()), Return(administrator, true))
    {
      outcome := ReturnToDraft(administrator, ChangesRequested);
    }

    method ArchiveCourse(administrator: bool) returns (outcome: Outcome)
      modifies this
      ensures (View(), outcome) == Step(old(View()), Archive(administrator))
    {
      if !administrator {
        return NotPermitted;
      }
      if (status, Archived) !in ALLOWED_TRANSITIONS {
        return InvalidTransition;
      }
      status := Archived;
      publishedAt := None;
      outcome := Done;
    }
  }

  // ----- the trail -----

  /** Where the trail alone says a course is; it cannot tell a live course from an archived one. */
  datatype Place = AtDraft | AtReview | AtOut

  function PlaceOf(status: Status): Place {
    match status
    case Draft => AtDraft
    case InReview => AtReview
    case Published => AtOut
    case Archived => AtOut
  }

  predicate IsReturn(action: Action) {
    action == Rejected || action == ChangesRequested
  }

  /** Replaying the trail; `None` once an action could not have followed. */
  function Replay(trail: seq<Action>): Option<Place> {
    if trail == [] then Some(AtDraft) else
      var n := |trail| - 1;
      match (Replay(trail[..n]), trail[n])
      case (Some(AtDraft), Submitted) => Some(AtReview)
      case (Some(AtReview), Approved) => Some(AtOut)
      case (Some(AtReview), action) => if IsReturn(action) then Some(AtDraft) else None
      case (Some(AtOut), action) => if IsReturn(action) then Some(AtDraft) else None
      case _ => None
  }

  function DecisionsOf(trail: seq<Action>): seq<AuditAction> {
    if trail == [] then [] else
      var n := |trail| - 1;
      DecisionsOf(trail[..n]) +
        (match trail[n]
         case Submitted => []
         case Approved => [CourseApproved]
         case Rejected => [CourseRejected]
         case ChangesRequested => [CourseChangesRequested])
  }

  /** Every cycle the review process allows: submitted and returned, or submitted, approved and returned. */
  predicate IsCycle(actions: seq<Action>) {
    (|actions| == 2 && actions[0] == Submitted && IsReturn(actions[1]))
    || (|actions| == 3 && actions[0] == Submitted && actions[1] == Approved && IsReturn(actions[2]))
  }

  /** Complete cycles followed by an unfinished one. */
  predicate WellFormedTrail(trail: seq<Action>) {
    if trail == [] || trail == [Submitted] || trail == [Submitted, Approved] then true
    else if |trail| >= 2 && IsCycle(trail[..2]) then WellFormedTrail(trail[2..])
    else |trail| >= 3 && IsCycle(trail[..3]) && WellFormedTrail(trail[3..])
  }

  ghost predicate Sound(c: Course) {
    && Replay(c.trail) == Some(PlaceOf(c.status))
    && (c.publishedAt.Some? <==> c.status == Published)
    && c.audit == DecisionsOf(c.trail)
  }

  lemma ReplayOne(trail: seq<Action>, action: Action)
    ensures Replay(trail + [action]) ==
            match (Replay(trail), action) {
              case (Some(AtDraft), Submitted) => Some(AtReview)
              case (Some(AtReview), Approved) => Some(AtOut)
              case (Some(AtReview), a) => if IsReturn(a) then Some(AtDraft) else None
              case (Some(AtOut), a) => if IsReturn(a) then Some(AtDraft) else None
              case _ => None
            }
    ensures DecisionsOf(trail + [action]) == DecisionsOf(trail) + DecisionsOf([action])
  {
    assert (trail + [action])[..|trail|] == trail;
    assert [action][..0] == [];
    assert DecisionsOf([]) == [];
  }

  lemma DecisionOne(action: Action)
    ensures DecisionsOf([action]) ==
            match action {
              case Submitted => []
              case Approved => [CourseApproved]
              case Rejected => [CourseRejected]
              case ChangesRequested => [CourseChangesRequested]
            }
  {
    assert [action][..0] == [];
    assert DecisionsOf([]) == [];
  }

  lemma StepKeepsSound(c: Course, op: Op)
    requires Sound(c)
    ensures Sound(Step(c, op).0)
  {
    hide Replay, DecisionsOf;
    match op
    case Submit(_) =>
      ReplayOne(c.trail, Submitted);
      DecisionOne(Submitted);
    case Approve(_, _) =>
      ReplayOne(c.trail, Approved);
      DecisionOne(Approved);
    case Return(_, changes) =>
      var action := if changes then ChangesRequested else Rejected;
      ReplayOne(c.trail, action);
      DecisionOne(action);
    case Archive(_) =>
  }

  /**
    In every run: the trail replays to the course's place, a publication date is set exactly while it is
    published, and the audit rows are the trail's decisions, one for one and in order.
  */
  lemma {:induction false} EveryRunIsSound(ops: seq<Op>)
    ensures Replay(Run(ops).trail) == Some(PlaceOf(Run(ops).status))
    ensures Run(ops).publishedAt.Some? <==> Run(ops).status == Published
    ensures Run(ops).audit == DecisionsOf(Run(ops).trail)
  {
    hide Step;
    if ops != [] {
      EveryRunIsSound(ops[..|ops| - 1]);
      StepKeepsSound(Run(ops[..|ops| - 1]), ops[|ops| - 1]);
    }
  }

  // ----- the replay accepts exactly the cycles -----

  /** Replaying onward from a place. */
  function ReplayFrom(place: Place, trail: seq<Action>): Option<Place>
    decreases |trail|
  {
    if trail == [] then Some(place) else
      match (place, trail[0])
      case (AtDraft, Submitted) => ReplayFrom(AtReview, trail[1..])
      case (AtReview, Approved) => ReplayFrom(AtOut, trail[1..])
      case (AtReview, action) => if IsReturn(action) then ReplayFrom(AtDraft, trail[1..]) else None
      case (AtOut, action) => if IsReturn(action) then ReplayFrom(AtDraft, trail[1..]) else None
      case _ => None
  }

  lemma {:induction false} ReplayFromAppend(place: Place, trail: seq<Action>, action: Action)
    ensures ReplayFrom(place, trail + [action]) ==
            match ReplayFrom(place, trail) {
              case Some(p) => ReplayFrom(p, [action])
              case None => None
            }
    decreases |trail|
  {
    var all := trail + [action];
    if trail == [] {
      assert all == [action];
    } else {
      assert all[1..] == trail[1..] + [action];
      ReplayFromAppend(AtDraft, trail[1..], action);
      ReplayFromAppend(AtReview, trail[1..], action);
      ReplayFromAppend(AtOut, trail[1..], action);
    }
  }

  lemma {:induction false} ReplayBothWays(trail: seq<Action>)
    ensures Replay(trail) == ReplayFrom(AtDraft, trail)
  {
    if trail != [] {
      var n := |trail| - 1;
      ReplayBothWays(trail[..n]);
      ReplayFromAppend(AtDraft, trail[..n], trail[n]);
      assert trail == trail[..n] + [trail[n]];
      assert [trail[n]][1..] == [];
    }
  }

  lemma {:induction false} ReplayMeansCycles(trail: seq<Action>)
    ensures ReplayFrom(AtDraft, trail).Some? <==> WellFormedTrail(trail)
    decreases |trail|
  {
    if |trail| >= 2 && trail[0] == Submitted {
      assert ReplayFrom(AtDraft, trail) == ReplayFrom(AtReview, trail[1..]);
      if IsReturn(trail[1]) {
        assert trail[1..][1..] == trail[2..];
        ReplayMeansCycles(trail[2..]);
      } else if |trail| >= 3 && trail[1] == Approved {
        assert trail[1..][1..] == trail[2..] && trail[2..][1..] == trail[3..];
        assert ReplayFrom(AtReview, trail[1..]) == ReplayFrom(AtOut, trail[2..]);
        assert !IsCycle(trail[..2]) && (IsCycle(trail[..3]) <==> IsReturn(trail[2]));
        ReplayMeansCycles(trail[3..]);
      } else if trail[1] == Approved {
        assert trail == [Submitted, Approved];
        assert trail[1..] == [Approved];
        assert [Approved][1..] == [];
      } else {
        assert trail[1] == Submitted && trail[1..][0] == Submitted;
      }
    } else if |trail| == 1 {
      assert trail == [trail[0]];
    }
  }

  /** In every run the trail is a sequence of whole review cycles and at most one unfinished. */
  lemma EveryTrailIsCycles(ops: seq<Op>)
    ensures WellFormedTrail(Run(ops).trail)
  {
    EveryRunIsSound(ops);
    ReplayBothWays(Run(ops).trail);
    ReplayMeansCycles(Run(ops).trail);
  }

  /** Nothing is published but by an approval that came straight after a submission. */
  lemma PublishedWasJustApproved(ops: seq<Op>)
    requires Run(ops).status == Published
    ensures var trail := Run(ops).trail;
            |trail| >= 2 && trail[|trail| - 1] == Approved && trail[|trail| - 2] == Submitted
  {
    EveryRunIsSound(ops);
    var trail := Run(ops).trail;
    var n := |trail| - 1;
    assert Replay(trail[..n]) == Some(AtReview);
    assert trail[..n][..n - 1] == trail[..n - 1];
  }

  /** The trail records no archiving, and a live course can be sent back only through the archive. */
  lemma ReturnLeavesOnlyTheArchive(c: Course, changes: bool)
    requires Sound(c) && c.status == Published
    ensures var archived := Step(c, Archive(true)).0;
            && archived.status == Archived && archived.trail == c.trail && archived.publishedAt.None?
            && Step(c, Return(true, changes)) == (c, InvalidTransition)
            && Step(archived, Return(true, changes)).0.status == Draft
  {
    hide Replay, DecisionsOf;
  }

  // ----- who moves a course, and what each move leaves -----

  /**
    Every move has one author: the owner submits a draft, and only an administrator approves what is in
    review, returns it from there or from the archive, and archives what is live. Anything else changes nothing.
  */
  lemma MovesHaveAuthors(c: Course, op: Op)
    ensures Step(c, op).1 == Done <==>
            || (op == Submit(true) && c.status == Draft)
            || (op.Approve? && op.administrator && c.status == InReview)
            || (op.Return? && op.administrator && c.status in {InReview, Archived})
            || (op == Archive(true) && c.status == Published)
    ensures Step(c, op).1 != Done ==> Step(c, op).0 == c
    ensures Step(c, op).0.status == c.status ==> Step(c, op).0 == c
  {
  }

  /** Which refusal a step gets: who is asking comes before what state the course is in. */
  lemma RefusalsSayWhy(c: Course, op: Op)
    requires Step(c, op).1 != Done
    ensures Step(c, op).1 ==
            if (if op.Submit? then !op.owner else !op.administrator) then NotPermitted else InvalidTransition
  {
  }

  /** Only an administrator's approval publishes, and it dates the course; what is live goes only to the archive. */
  lemma RoutesToAndFromPublished(c: Course, op: Op)
    ensures Step(c, op).0.status == Published && c.status != Published ==>
              op.Approve? && op.administrator && c.status == InReview && Step(c, op).0.publishedAt == Some(op.now)
    ensures c.status == Published && Step(c, op).0.status != Published ==>
              op == Archive(true) && Step(c, op).0.status == Archived && Step(c, op).0.publishedAt == None
  {
  }

  lemma RunNext(ops: seq<Op>, i: nat)
    requires i < |ops|
    ensures Run(ops[..i + 1]) == Step(Run(ops[..i]), ops[i]).0
  {
    hide Step;
    assert ops[..i + 1][..i] == ops[..i];
  }

  /** The approval at step `a` is why the course is live before step `n`, and nothing has moved it since. */
  ghost predicate PublishedBy(ops: seq<Op>, a: nat, n: nat)
    requires a < n <= |ops|
  {
    && ops[a].Approve? && ops[a].administrator && Run(ops[..a]).status == InReview
    && Run(ops[..n]).publishedAt == Some(ops[a].now)
    && forall k :: a < k <= n ==> Run(ops[..k]) == Run(ops[..n])
  }

  /** In every run a live course was published by an administrator, and its date is when they did it. */
  lemma {:induction false} PublishedByAnAdministrator(ops: seq<Op>, n: nat) returns (a: nat)
    requires n <= |ops| && Run(ops[..n]).status == Published
    ensures a < n && PublishedBy(ops, a, n)
    decreases n
  {
    hide Step;
    assert n > 0;
    RunNext(ops, n - 1);
    RoutesToAndFromPublished(Run(ops[..n - 1]), ops[n - 1]);
    if Run(ops[..n - 1]).status == Published {
      MovesHaveAuthors(Run(ops[..n - 1]), ops[n - 1]);
      a := PublishedByAnAdministrator(ops, n - 1);
    } else {
      a := n - 1;
    }
  }

  /** What each accepted step adds to the trail; archiving adds nothing. */
  function Deed(op: Op): seq<Action> {
    match op
    case Submit(_) => [Submitted]
    case Approve(_, _) => [Approved]
    case Return(_, changes) => [if changes then ChangesRequested else Rejected]
    case Archive(_) => []
  }

  function Deeds(ops: seq<Op>): seq<Action> {
    if ops == [] then [] else
      var n := |ops| - 1;
      Deeds(ops[..n]) + (if Step(Run(ops[..n]), ops[n]).1 == Done then Deed(ops[n]) else [])
  }

  /** The trail the instructor reads is the history: every accepted step but archiving, in order, under its own name. */
  lemma {:induction false} TrailIsTheHistory(ops: seq<Op>)
    ensures Run(ops).trail == Deeds(ops)
  {
    if ops != [] {
      TrailIsTheHistory(ops[..|ops| - 1]);
    }
  }
}
