/**
  Who may see gated content, and why: the resolver, which only reads, and the nightly report of rows whose
  stored state has drifted from what the resolver decides.
*/
module Entitlements {
  import opened Options

  /** Instants and durations, in seconds. */
  type Time = int

  const DAY := 86400

  datatype Status = Trialing | Active | PastDue | Canceled | Expired
  datatype Subscription = Subscription(
    user: nat, status: Status, periodEnd: Time, trialEnd: Option<Time>, cancelAtPeriodEnd: bool)
  datatype Override = Override(startsAt: Time, endsAt: Time)
  datatype Caller = Anonymous | SignedIn(id: nat, administrator: bool)
  datatype Lesson = Lesson(isPreview: bool, instructor: nat)

  datatype Reason =
    | Preview | Staff | CourseOwner | ManualGrant | SubscriptionActive | TrialRunning | GracePeriod | CanceledButPaid
    | LoginRequired | NoSubscription | SubscriptionExpired | TrialExpired | TrialScope | GracePeriodEnded
  datatype Cta = Login | Subscribe | UpdatePayment
  datatype Decision = Decision(allowed: bool, reason: Reason, cta: Option<Cta>)

  function Allow(reason: Reason): Decision {
    Decision(true, reason, None)
  }

  function Deny(reason: Reason, cta: Cta): Decision {
    Decision(false, reason, Some(cta))
  }

  const DENIAL_RANK: map<Reason, nat> := map[
    NoSubscription := 0, TrialScope := 1, TrialExpired := 2, SubscriptionExpired := 3, GracePeriodEnded := 4
  ]

  /** The scoping rule of trials is undecided; until it is, a trial covers every lesson. */
  predicate TrialCovers(s: Subscription) {
    true
  }

  /** `_decide_for`: one subscription's answer, the other inputs ignored. */
  function DecideFor(s: Subscription, now: Time, grace: nat): Decision {
    match s.status
    case Active => Allow(SubscriptionActive)
    case Trialing =>
      if s.trialEnd.Some? && now >= s.trialEnd.value then Deny(TrialExpired, Subscribe)
      else if !TrialCovers(s) then Deny(TrialScope, Subscribe)
      else Allow(TrialRunning)
    case PastDue =>
      if now < s.periodEnd + grace then Allow(GracePeriod) else Deny(GracePeriodEnded, UpdatePayment)
    case Canceled =>
      if now < s.periodEnd then Allow(CanceledButPaid) else Deny(SubscriptionExpired, Subscribe)
    case Expired => Deny(SubscriptionExpired, Subscribe)
  }

  function Decisions(rows: seq<Subscription>, now: Time, grace: nat): (ds: seq<Decision>)
    ensures |ds| == |rows|
    ensures forall i :: 0 <= i < |rows| ==> ds[i] == DecideFor(rows[i], now, grace)
  {
    seq(|rows|, i requires 0 <= i < |rows| => DecideFor(rows[i], now, grace))
  }

  predicate OverrideCovers(o: Override, now: Time) {
    o.startsAt <= now < o.endsAt
  }

  predicate Covered(overrides: seq<Override>, now: Time) {
    exists i :: 0 <= i < |overrides| && OverrideCovers(overrides[i], now)
  }

  function FirstAllowed(ds: seq<Decision>): Option<Decision> {
    if ds == [] then None else if ds[0].allowed then Some(ds[0]) else FirstAllowed(ds[1..])
  }

  predicate Ranked(ds: seq<Decision>) {
    forall i :: 0 <= i < |ds| ==> ds[i].reason in DENIAL_RANK
  }

  /** Python's `max` by rank: the first of the highest. */
  function MostInformative(ds: seq<Decision>): (d: Decision)
    requires ds != [] && Ranked(ds)
    ensures d in ds && d.reason in DENIAL_RANK
    ensures forall i :: 0 <= i < |ds| ==> DENIAL_RANK[ds[i].reason] <= DENIAL_RANK[d.reason]
  {
    var n := |ds| - 1;
    if n == 0 then ds[0] else
      var best := MostInformative(ds[..n]);
      if DENIAL_RANK[ds[n].reason] > DENIAL_RANK[best.reason] then ds[n] else best
  }

  lemma {:induction false} NoneAllowed(ds: seq<Decision>)
    ensures FirstAllowed(ds).None? <==> forall i :: 0 <= i < |ds| ==> !ds[i].allowed
    ensures FirstAllowed(ds).Some? ==> FirstAllowed(ds).value in ds && FirstAllowed(ds).value.allowed
  {
    if ds != [] {
      NoneAllowed(ds[1..]);
      if ds[0].allowed {
      } else {
        assert forall i :: 0 <= i < |ds| - 1 ==> ds[1..][i] == ds[i + 1];
        if FirstAllowed(ds).None? {
          forall i | 0 <= i < |ds|
            ensures !ds[i].allowed
          {
            if i > 0 {
              assert !ds[1..][i - 1].allowed;
            }
          }
        }
      }
    }
  }

  /** Every refusal a subscription can give has a rank: the lookup never misses. */
  lemma RefusalsAreRanked(rows: seq<Subscription>, now: Time, grace: nat)
    requires FirstAllowed(Decisions(rows, now, grace)).None?
    ensures Ranked(Decisions(rows, now, grace))
  {
    NoneAllowed(Decisions(rows, now, grace));
    forall i | 0 <= i < |rows|
      ensures DecideFor(rows[i], now, grace).reason in DENIAL_RANK
    {
      assert !Decisions(rows, now, grace)[i].allowed;
    }
  }

  /** `resolve_account_access` over the caller's rows, in whatever order the database lists them. */
  function ResolveAccount(caller: Caller, rows: seq<Subscription>, overrides: seq<Override>,
                          now: Time, grace: nat): Decision
  {
    match caller
    case Anonymous => Deny(LoginRequired, Login)
    case SignedIn(_, administrator) =>
      if administrator then Allow(Staff)
      else if Covered(overrides, now) then Allow(ManualGrant)
      else
        var ds := Decisions(rows, now, grace);
        match FirstAllowed(ds)
        case Some(d) => d
        case None =>
          RefusalsAreRanked(rows, now, grace);
          if ds == [] then Deny(NoSubscription, Subscribe) else MostInformative(ds)
  }

  /** `resolve_access`. */
  function ResolveAccess(caller: Caller, lesson: Lesson, rows: seq<Subscription>, overrides: seq<Override>,
                         now: Time, grace: nat): Decision
  {
    if lesson.isPreview then Allow(Preview)
    else if caller.SignedIn? && lesson.instructor == caller.id then Allow(CourseOwner)
    else ResolveAccount(caller, rows, overrides, now, grace)
  }

  // ----- the order of rows -----

  /** A refusal's reason and call to action follow from its rank. */
  lemma RankDeterminesRefusal(s: Subscription, t: Subscription, now: Time, grace: nat)
    requires !DecideFor(s, now, grace).allowed && !DecideFor(t, now, grace).allowed
    ensures DecideFor(s, now, grace).reason in DENIAL_RANK && DecideFor(t, now, grace).reason in DENIAL_RANK
    ensures DENIAL_RANK[DecideFor(s, now, grace).reason] == DENIAL_RANK[DecideFor(t, now, grace).reason]
        ==> DecideFor(s, now, grace) == DecideFor(t, now, grace)
  {
  }

  /** Who is let in does not depend on the order of the rows; nor does anything a refused caller is told. */
  lemma OrderOfRowsIsIrrelevant(caller: Caller, rows: seq<Subscription>, rows': seq<Subscription>,
                                overrides: seq<Override>, overrides': seq<Override>, now: Time, grace: nat)
    requires multiset(rows) == multiset(rows') && multiset(overrides) == multiset(overrides')
    ensures var d := ResolveAccount(caller, rows, overrides, now, grace);
            var d' := ResolveAccount(caller, rows', overrides', now, grace);
            d.allowed == d'.allowed && (!d.allowed ==> d == d')
  {
    var ds, ds' := Decisions(rows, now, grace), Decisions(rows', now, grace);
    SameOverrides(overrides, overrides', now);
    SameOverrides(overrides', overrides, now);
    NoneAllowed(ds);
    NoneAllowed(ds');
    SameDecisions(rows, rows', now, grace);
    SameDecisions(rows', rows, now, grace);
    assert |rows| == |multiset(rows)| == |multiset(rows')| == |rows'|;
    if FirstAllowed(ds).None? && FirstAllowed(ds').None? && ds != [] {
      RefusalsAreRanked(rows, now, grace);
      RefusalsAreRanked(rows', now, grace);
      SameWorstRefusal(rows, rows', now, grace);
    }
  }

  lemma SameOverrides(overrides: seq<Override>, overrides': seq<Override>, now: Time)
    requires multiset(overrides) == multiset(overrides')
    ensures Covered(overrides, now) ==> Covered(overrides', now)
  {
    if i :| 0 <= i < |overrides| && OverrideCovers(overrides[i], now) {
      assert overrides[i] in multiset(overrides');
    }
  }

  lemma SameDecisions(rows: seq<Subscription>, rows': seq<Subscription>, now: Time, grace: nat)
    requires multiset(rows) == multiset(rows')
    ensures forall i :: 0 <= i < |rows| ==> Decisions(rows, now, grace)[i] in Decisions(rows', now, grace)
  {
    forall i | 0 <= i < |rows|
      ensures Decisions(rows, now, grace)[i] in Decisions(rows', now, grace)
    {
      assert rows[i] in multiset(rows');
      var j :| 0 <= j < |rows'| && rows'[j] == rows[i];
      assert Decisions(rows', now, grace)[j] == Decisions(rows, now, grace)[i];
    }
  }

  lemma SameWorstRefusal(rows: seq<Subscription>, rows': seq<Subscription>, now: Time, grace: nat)
    requires multiset(rows) == multiset(rows') && rows != [] && rows' != []
    requires Ranked(Decisions(rows, now, grace)) && Ranked(Decisions(rows', now, grace))
    requires FirstAllowed(Decisions(rows, now, grace)).None?
    ensures MostInformative(Decisions(rows, now, grace)) == MostInformative(Decisions(rows', now, grace))
  {
    hide DecideFor, MostInformative, FirstAllowed;
    var ds, ds' := Decisions(rows, now, grace), Decisions(rows', now, grace);
    var d, d' := MostInformative(ds), MostInformative(ds');
    SameDecisions(rows, rows', now, grace);
    SameDecisions(rows', rows, now, grace);
    var i :| 0 <= i < |ds| && ds[i] == d;
    var j' :| 0 <= j' < |ds'| && ds'[j'] == d';
    assert ds'[j'] in ds && ds[i] in ds';
    var j :| 0 <= j < |ds| && ds[j] == d';
    var i' :| 0 <= i' < |ds'| && ds'[i'] == d;
    NoneAllowed(ds);
    RankDeterminesRefusal(rows[i], rows[j], now, grace);
  }

  /** All the rows that let their user in do so for the same reason. */
  predicate AllowAlike(rows: seq<Subscription>, now: Time, grace: nat) {
    forall i, j :: 0 <= i < |rows| && 0 <= j < |rows|
                   && DecideFor(rows[i], now, grace).allowed && DecideFor(rows[j], now, grace).allowed ==>
      DecideFor(rows[i], now, grace) == DecideFor(rows[j], now, grace)
  }

  /** Whatever order the database lists the rows and grants in, the caller gets the same decision. */
  ghost predicate OrderFree(caller: Caller, rows: seq<Subscription>, overrides: seq<Override>, now: Time, grace: nat) {
    forall rows', overrides' | multiset(rows') == multiset(rows) && multiset(overrides') == multiset(overrides) ::
      ResolveAccount(caller, rows', overrides', now, grace) == ResolveAccount(caller, rows, overrides, now, grace)
  }

  /**
    The reason given to a caller who is let in may follow the order of the rows. The decision as a whole does
    not exactly when the rows are not what decides, or all those that allow do so for the same reason.
  */
  lemma AllowedReasonFollowsOrder(caller: Caller, rows: seq<Subscription>, overrides: seq<Override>,
                                  now: Time, grace: nat)
    ensures OrderFree(caller, rows, overrides, now, grace) <==>
            caller.Anonymous? || caller.administrator || Covered(overrides, now) || AllowAlike(rows, now, grace)
  {
    hide ResolveAccount, AllowAlike, DecideFor;
    if caller.Anonymous? || caller.administrator || Covered(overrides, now) || AllowAlike(rows, now, grace) {
      forall rows', overrides' | multiset(rows') == multiset(rows) && multiset(overrides') == multiset(overrides)
        ensures ResolveAccount(caller, rows', overrides', now, grace)
             == ResolveAccount(caller, rows, overrides, now, grace)
      {
        OrderOfRowsIsIrrelevant(caller, rows, rows', overrides, overrides', now, grace);
        SameOverrides(overrides, overrides', now);
        SameOverrides(overrides', overrides, now);
        AlikeInAnyOrder(caller, rows, rows', overrides, overrides', now, grace);
      }
    } else {
      DifferentFronts(caller, rows, overrides, now, grace);
    }
  }

  lemma AlikeInAnyOrder(caller: Caller, rows: seq<Subscription>, rows': seq<Subscription>,
                        overrides: seq<Override>, overrides': seq<Override>, now: Time, grace: nat)
    requires multiset(rows') == multiset(rows)
    requires Covered(overrides, now) <==> Covered(overrides', now)
    requires caller.Anonymous? || caller.administrator || Covered(overrides, now) || AllowAlike(rows, now, grace)
    requires var d := ResolveAccount(caller, rows, overrides, now, grace);
             var d' := ResolveAccount(caller, rows', overrides', now, grace);
             d.allowed == d'.allowed && (!d.allowed ==> d == d')
    ensures ResolveAccount(caller, rows', overrides', now, grace) == ResolveAccount(caller, rows, overrides, now, grace)
  {
    hide DecideFor, MostInformative;
    var ds, ds' := Decisions(rows, now, grace), Decisions(rows', now, grace);
    NoneAllowed(ds);
    NoneAllowed(ds');
    SameDecisions(rows', rows, now, grace);
    if FirstAllowed(ds).Some? && FirstAllowed(ds').Some? {
      assert FirstAllowed(ds').value in ds;
    }
  }

  function ToFront(rows: seq<Subscription>, i: nat): seq<Subscription>
    requires i < |rows|
  {
    [rows[i]] + rows[..i] + rows[i + 1..]
  }

  /** A row that allows, listed first, decides. */
  lemma FrontDecides(id: nat, rows: seq<Subscription>, i: nat, overrides: seq<Override>, now: Time, grace: nat)
    requires i < |rows| && DecideFor(rows[i], now, grace).allowed && !Covered(overrides, now)
    ensures multiset(ToFront(rows, i)) == multiset(rows)
    ensures ResolveAccount(SignedIn(id, false), ToFront(rows, i), overrides, now, grace)
         == DecideFor(rows[i], now, grace)
  {
    hide DecideFor;
    assert rows == rows[..i] + [rows[i]] + rows[i + 1..];
    assert Decisions(ToFront(rows, i), now, grace)[0] == DecideFor(rows[i], now, grace);
  }

  lemma DifferentFronts(caller: Caller, rows: seq<Subscription>, overrides: seq<Override>, now: Time, grace: nat)
    requires caller.SignedIn? && !caller.administrator && !Covered(overrides, now) && !AllowAlike(rows, now, grace)
    ensures !OrderFree(caller, rows, overrides, now, grace)
  {
    hide ResolveAccount, DecideFor;
    var i, j :| 0 <= i < |rows| && 0 <= j < |rows|
                && DecideFor(rows[i], now, grace).allowed && DecideFor(rows[j], now, grace).allowed
                && DecideFor(rows[i], now, grace) != DecideFor(rows[j], now, grace);
    FrontDecides(caller.id, rows, i, overrides, now, grace);
    FrontDecides(caller.id, rows, j, overrides, now, grace);
    assert multiset(overrides) == multiset(overrides);
  }

  // ----- what the caller is told -----

  predicate HasStatus(rows: seq<Subscription>, status: Status) {
    exists i :: 0 <= i < |rows| && rows[i].status == status
  }

  lemma RefusedEverywhere(id: nat, rows: seq<Subscription>, overrides: seq<Override>, now: Time, grace: nat)
    requires !ResolveAccount(SignedIn(id, false), rows, overrides, now, grace).allowed && rows != []
    ensures forall i :: 0 <= i < |rows| ==> !DecideFor(rows[i], now, grace).allowed
    ensures exists i :: 0 <= i < |rows| &&
              ResolveAccount(SignedIn(id, false), rows, overrides, now, grace) == DecideFor(rows[i], now, grace)
              && forall k :: 0 <= k < |rows| ==> RanksNoHigher(rows[k], rows[i], now, grace)
  {
    hide DecideFor;
    var ds := Decisions(rows, now, grace);
    NoneAllowed(ds);
    RefusalsAreRanked(rows, now, grace);
    var d := MostInformative(ds);
    var i :| 0 <= i < |ds| && ds[i] == d;
    forall k | 0 <= k < |rows|
      ensures !DecideFor(rows[k], now, grace).allowed && RanksNoHigher(rows[k], rows[i], now, grace)
    {
      assert !ds[k].allowed && DENIAL_RANK[ds[k].reason] <= DENIAL_RANK[d.reason];
    }
  }

  predicate RanksNoHigher(s: Subscription, t: Subscription, now: Time, grace: nat) {
    && DecideFor(s, now, grace).reason in DENIAL_RANK && DecideFor(t, now, grace).reason in DENIAL_RANK
    && DENIAL_RANK[DecideFor(s, now, grace).reason] <= DENIAL_RANK[DecideFor(t, now, grace).reason]
  }

  /** A refusal told by statuses: a failed card first, then an ended subscription, then an ended trial. */
  function Refusal(caller: Caller, rows: seq<Subscription>): Decision {
    if caller.Anonymous? then Deny(LoginRequired, Login)
    else if HasStatus(rows, PastDue) then Deny(GracePeriodEnded, UpdatePayment)
    else if HasStatus(rows, Canceled) || HasStatus(rows, Expired) then Deny(SubscriptionExpired, Subscribe)
    else if rows != [] then Deny(TrialExpired, Subscribe)
    else Deny(NoSubscription, Subscribe)
  }

  /** What a refused caller is told follows from which statuses their rows have, and from nothing else. */
  lemma WhatARefusedCallerIsTold(caller: Caller, lesson: Lesson, rows: seq<Subscription>, overrides: seq<Override>,
                                 now: Time, grace: nat)
    requires !ResolveAccess(caller, lesson, rows, overrides, now, grace).allowed
    ensures ResolveAccess(caller, lesson, rows, overrides, now, grace) == Refusal(caller, rows)
  {
    if caller.SignedIn? && rows != [] {
      RefusedEverywhere(caller.id, rows, overrides, now, grace);
      hide ResolveAccount;
      var i :| 0 <= i < |rows| &&
               ResolveAccount(caller, rows, overrides, now, grace) == DecideFor(rows[i], now, grace)
               && forall k :: 0 <= k < |rows| ==> RanksNoHigher(rows[k], rows[i], now, grace);
      if k :| 0 <= k < |rows| && rows[k].status == PastDue {
        assert RanksNoHigher(rows[k], rows[i], now, grace);
      } else if k :| 0 <= k < |rows| && (rows[k].status == Canceled || rows[k].status == Expired) {
        assert RanksNoHigher(rows[k], rows[i], now, grace);
      }
    }
  }

  lemma {:induction false} FirstAllowedIsFirst(ds: seq<Decision>) returns (i: nat)
    requires FirstAllowed(ds).Some?
    ensures i < |ds| && ds[i] == FirstAllowed(ds).value && ds[i].allowed && forall k :: 0 <= k < i ==> !ds[k].allowed
  {
    if ds[0].allowed {
      i := 0;
    } else {
      var j := FirstAllowedIsFirst(ds[1..]);
      i := j + 1;
    }
  }

  /** Why a row lets its user in, by its status. */
  function CoverReason(status: Status): Reason {
    match status
    case Active => SubscriptionActive
    case Trialing => TrialRunning
    case PastDue => GracePeriod
    case Canceled => CanceledButPaid
    case Expired => SubscriptionExpired
  }

  predicate IsOwner(caller: Caller, lesson: Lesson) {
    caller.SignedIn? && caller.id == lesson.instructor
  }

  predicate IsAdministrator(caller: Caller) {
    caller.SignedIn? && caller.administrator
  }

  /** The first row whose boundary is still ahead. */
  predicate FirstCovering(rows: seq<Subscription>, i: nat, now: Time, grace: nat) {
    && i < |rows| && Before(now, Boundary(rows[i], grace))
    && forall k :: 0 <= k < i ==> !Before(now, Boundary(rows[k], grace))
  }

  /** The reason given to a caller who is let in: the first that applies, in this order. */
  lemma WhyACallerIsLetIn(caller: Caller, lesson: Lesson, rows: seq<Subscription>, overrides: seq<Override>,
                          now: Time, grace: nat) returns (i: nat)
    requires ResolveAccess(caller, lesson, rows, overrides, now, grace).allowed
    ensures var d := ResolveAccess(caller, lesson, rows, overrides, now, grace);
            if lesson.isPreview then d == Allow(Preview)
            else if IsOwner(caller, lesson) then d == Allow(CourseOwner)
            else if IsAdministrator(caller) then d == Allow(Staff)
            else if Covered(overrides, now) then d == Allow(ManualGrant)
            else FirstCovering(rows, i, now, grace) && d == Allow(CoverReason(rows[i].status))
  {
    i := 0;
    var ds := Decisions(rows, now, grace);
    if FirstAllowed(ds).Some? {
      i := FirstAllowedIsFirst(ds);
      BoundaryDecides(rows[i], now, grace);
      forall k | 0 <= k < i
        ensures !Before(now, Boundary(rows[k], grace))
      {
        BoundaryDecides(rows[k], now, grace);
        assert !ds[k].allowed;
      }
    }
    NoneAllowed(ds);
    if FirstAllowed(ds).None? && ds != [] {
      RefusalsAreRanked(rows, now, grace);
      assert MostInformative(ds) in ds;
    }
  }

  // ----- the passage of time -----

  /** Until when something grants access. */
  datatype Horizon = Never | Until(end: Time) | Forever

  predicate Before(now: Time, h: Horizon) {
    match h
    case Never => false
    case Until(end) => now < end
    case Forever => true
  }

  function Later(h: Horizon, k: Horizon): Horizon {
    match (h, k)
    case (Forever, _) => Forever
    case (_, Forever) => Forever
    case (Never, _) => k
    case (_, Never) => h
    case (Until(s), Until(t)) => Until(if s < t then t else s)
  }

  /** The boundary each status is held to: none for a paying row, and none left for an expired one. */
  function Boundary(s: Subscription, grace: nat): Horizon {
    match s.status
    case Active => Forever
    case Trialing => if s.trialEnd.Some? then Until(s.trialEnd.value) else Forever
    case PastDue => Until(s.periodEnd + grace)
    case Canceled => Until(s.periodEnd)
    case Expired => Never
  }

  function RowsHorizon(rows: seq<Subscription>, grace: nat): Horizon {
    if rows == [] then Never else Later(Boundary(rows[0], grace), RowsHorizon(rows[1..], grace))
  }

  function OverridesHorizon(overrides: seq<Override>): Horizon {
    if overrides == [] then Never else Later(Until(overrides[0].endsAt), OverridesHorizon(overrides[1..]))
  }

  lemma BoundaryDecides(s: Subscription, now: Time, grace: nat)
    ensures DecideFor(s, now, grace).allowed <==> Before(now, Boundary(s, grace))
  {
  }

  lemma {:induction false} BeforeRowsHorizon(rows: seq<Subscription>, now: Time, grace: nat)
    ensures Before(now, RowsHorizon(rows, grace)) <==> FirstAllowed(Decisions(rows, now, grace)).Some?
  {
    if rows != [] {
      hide DecideFor, Boundary;
      BoundaryDecides(rows[0], now, grace);
      BeforeRowsHorizon(rows[1..], now, grace);
      assert Decisions(rows, now, grace)[1..] == Decisions(rows[1..], now, grace);
    }
  }

  lemma {:induction false} BeforeOverridesHorizon(overrides: seq<Override>, now: Time)
    requires forall i :: 0 <= i < |overrides| ==> overrides[i].startsAt <= now
    ensures Before(now, OverridesHorizon(overrides)) <==> Covered(overrides, now)
  {
    if overrides != [] {
      var rest := overrides[1..];
      BeforeOverridesHorizon(rest, now);
      if i :| 0 <= i < |rest| && OverrideCovers(rest[i], now) {
        assert OverrideCovers(overrides[i + 1], now);
      }
      if i :| 0 <= i < |overrides| && OverrideCovers(overrides[i], now) {
        if i > 0 {
          assert OverrideCovers(rest[i - 1], now);
        }
      }
    }
  }

  /**
    With fixed rows, and every grant begun, a signed-in caller has access at an instant exactly when it is
    before the latest boundary among the rows and grants.
  */
  lemma {:induction false} AccessEndsAtTheHorizon(id: nat, rows: seq<Subscription>, overrides: seq<Override>,
                                                  now: Time, grace: nat)
    requires forall i :: 0 <= i < |overrides| ==> overrides[i].startsAt <= now
    ensures ResolveAccount(SignedIn(id, false), rows, overrides, now, grace).allowed
       <==> Before(now, Later(RowsHorizon(rows, grace), OverridesHorizon(overrides)))
  {
    hide RowsHorizon, OverridesHorizon, FirstAllowed, MostInformative, DecideFor;
    BeforeRowsHorizon(rows, now, grace);
    BeforeOverridesHorizon(overrides, now);
    var ds := Decisions(rows, now, grace);
    NoneAllowed(ds);
    if FirstAllowed(ds).None? && ds != [] {
      RefusalsAreRanked(rows, now, grace);
      assert MostInformative(ds) in ds;
    }
  }

  /** So access, once refused, stays refused until a row changes. */
  lemma AccessOnlyEnds(id: nat, rows: seq<Subscription>, overrides: seq<Override>, now: Time, later: Time, grace: nat)
    requires forall i :: 0 <= i < |overrides| ==> overrides[i].startsAt <= now
    requires now <= later && ResolveAccount(SignedIn(id, false), rows, overrides, later, grace).allowed
    ensures ResolveAccount(SignedIn(id, false), rows, overrides, now, grace).allowed
  {
    hide ResolveAccount;
    AccessEndsAtTheHorizon(id, rows, overrides, now, grace);
    AccessEndsAtTheHorizon(id, rows, overrides, later, grace);
  }

  /** The whole question for one lesson: everything that opens it, and nothing else does. */
  lemma {:induction false} WhoMaySeeALesson(caller: Caller, lesson: Lesson, rows: seq<Subscription>,
                                            overrides: seq<Override>, now: Time, grace: nat)
    requires forall i :: 0 <= i < |overrides| ==> overrides[i].startsAt <= now
    ensures ResolveAccess(caller, lesson, rows, overrides, now, grace).allowed <==>
            lesson.isPreview ||
            (caller.SignedIn? &&
              (lesson.instructor == caller.id || caller.administrator ||
               Before(now, Later(RowsHorizon(rows, grace), OverridesHorizon(overrides)))))
  {
    hide RowsHorizon, OverridesHorizon, FirstAllowed, MostInformative, DecideFor;
    if caller.SignedIn? {
      AccessEndsAtTheHorizon(caller.id, rows, overrides, now, grace);
    }
  }

  // ----- manual grants -----

  /** `grant_access_override`; `None` stands for its InvalidOverride. */
  function GrantOverride(days: int, maxDays: int, reasonGiven: bool, now: Time): Option<Override> {
    if days < 1 || days > maxDays || !reasonGiven then None else Some(Override(now, now + days * DAY))
  }

  /** The administrative audit row of a grant. */
  datatype Granted = Granted(actor: nat, days: int, endsAt: Time)

  /** One user's grants and the audit rows about them, as the service inserts them. */
  class Grants {
    var overrides: seq<Override>
    var audit: seq<Granted>

    /** Every grant has its audit row, and no row is without a grant. */
    ghost predicate Valid()
      reads this
    {
      && |audit| == |overrides|
      && forall i :: 0 <= i < |audit| ==>
           audit[i].endsAt == overrides[i].endsAt
           && overrides[i].endsAt == overrides[i].startsAt + audit[i].days * DAY && audit[i].days >= 1
    }

    constructor ()
      ensures Valid() && overrides == [] && audit == []
    {
      overrides, audit := [], [];
    }

    method GrantAccessOverride(actor: nat, days: int, maxDays: int, reasonGiven: bool, now: Time)
      returns (granted: bool)
      requires Valid()
      modifies this
      ensures Valid()
      ensures granted == GrantOverride(days, maxDays, reasonGiven, now).Some?
      ensures granted ==>
        var grant := GrantOverride(days, maxDays, reasonGiven, now).value;
        overrides == old(overrides) + [grant] && audit == old(audit) + [Granted(actor, days, grant.endsAt)]
      ensures !granted ==> overrides == old(overrides) && audit == old(audit)
    {
      if days < 1 || days > maxDays {
        return false;
      }
      if !reasonGiven {
        return false;
      }
      overrides := overrides + [Override(now, now + days * DAY)];
      audit := audit + [Granted(actor, days, now + days * DAY)];
      granted := true;
    }
  }

  /** The list a user with no grants has after one is asked for. */
  function GrantsAfter(days: int, maxDays: int, reasonGiven: bool, granted: Time): seq<Override> {
    var o := GrantOverride(days, maxDays, reasonGiven, granted);
    if o.Some? then [o.value] else []
  }

  /**
    To anyone no row lets in, asking for a grant gives access at exactly the moments of its window, if the days
    are in range and a reason is given, and at none otherwise.
  */
  lemma GrantOpensItsWindow(id: nat, rows: seq<Subscription>, days: int, maxDays: int, reasonGiven: bool, granted: Time,
                            now: Time, grace: nat)
    requires !ResolveAccount(SignedIn(id, false), rows, [], now, grace).allowed
    ensures var overrides := GrantsAfter(days, maxDays, reasonGiven, granted);
            ResolveAccount(SignedIn(id, false), rows, overrides, now, grace).allowed
            <==> 1 <= days <= maxDays && reasonGiven && granted <= now < granted + days * 86400
  {
    hide FirstAllowed, MostInformative, DecideFor;
    var o := GrantOverride(days, maxDays, reasonGiven, granted);
    if o.Some? {
      assert OverrideCovers([o.value][0], now) <==> granted <= now < granted + days * 86400;
    }
  }
}
