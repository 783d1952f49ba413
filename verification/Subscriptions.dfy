/**
  Subscription writes: the transition table, the append-only event log beside each row, and what every
  run of the services keeps. What the billing provider reports is arbitrary.
*/
module Subscriptions {
  import opened Options
  import opened Ordering
  import opened Entitlements
  import opened Reconciliation

  datatype EventType =
    TrialStarted | Activated | Renewed | PaymentFailed | CancellationRequested | CanceledNow | ExpiredNow

  /** `fromStatus` is `None` for the empty string of a row's first event. */
  datatype Event = Event(eventType: EventType, fromStatus: Option<Status>, toStatus: Status)

  /** What the provider believes. */
  datatype Snapshot = Snapshot(status: Status, periodEnd: Time, trialEnd: Option<Time>, cancelAtPeriodEnd: bool)

  datatype Billing = Billing(rows: map<nat, Subscription>, log: map<nat, seq<Event>>)

  datatype Outcome = Done | TransitionError | IntegrityError | NoSuchRow

  const ALLOWED_TRANSITIONS: set<(Status, Status)> := {
    (Trialing, Active), (Trialing, PastDue), (Trialing, Canceled), (Trialing, Expired),
    (Active, Active), (Active, PastDue), (Active, Canceled), (Active, Expired),
    (PastDue, Active), (PastDue, Canceled), (PastDue, Expired),
    (Canceled, Expired)
  }

  const EVENT_FOR: map<Status, EventType> := map[
    Active := Activated, PastDue := PaymentFailed, Canceled := CanceledNow, Expired := ExpiredNow
  ]

  predicate HasLive(rows: map<nat, Subscription>, user: nat) {
    exists id :: id in rows && rows[id].user == user && IsLive(rows[id].status)
  }

  /** `start_subscription`: the new row's id is fresh, and a trial must carry its end. */
  function Start(db: Billing, user: nat, id: nat, trial: bool, snapshot: Snapshot): (Billing, Outcome) {
    if HasLive(db.rows, user) then (db, TransitionError)
    else if id in db.rows || (snapshot.status == Trialing && snapshot.trialEnd.None?) then (db, IntegrityError)
    else
      var row := Subscription(user, snapshot.status, snapshot.periodEnd, snapshot.trialEnd, snapshot.cancelAtPeriodEnd);
      var event := Event(if trial then TrialStarted else Activated, None, snapshot.status);
      (Billing(db.rows[id := row], db.log[id := [event]]), Done)
  }

  /** The row after a snapshot is written on it; a trial's end is never cleared. */
  function Written(row: Subscription, snapshot: Snapshot): Subscription {
    row.(status := snapshot.status, periodEnd := snapshot.periodEnd, cancelAtPeriodEnd := snapshot.cancelAtPeriodEnd,
         trialEnd := if snapshot.trialEnd.Some? then snapshot.trialEnd else row.trialEnd)
  }

  function Logged(log: map<nat, seq<Event>>, id: nat, event: Event): map<nat, seq<Event>> {
    log[id := (if id in log then log[id] else []) + [event]]
  }

  /** `_apply`; the table of event types is only consulted where it has an entry. */
  function Apply(db: Billing, id: nat, snapshot: Snapshot, eventType: Option<EventType>): (Billing, Outcome) {
    if id !in db.rows then (db, NoSuchRow) else
      var previous := db.rows[id].status;
      if (previous, snapshot.status) !in ALLOWED_TRANSITIONS then (db, TransitionError) else
        var kind := if eventType.Some? then eventType.value else EVENT_FOR[snapshot.status];
        (Billing(db.rows[id := Written(db.rows[id], snapshot)],
                 Logged(db.log, id, Event(kind, Some(previous), snapshot.status))), Done)
  }

  /** `expire`: time passed, so no provider is asked. */
  function Expire(db: Billing, id: nat): (Billing, Outcome) {
    if id !in db.rows then (db, NoSuchRow) else
      var previous := db.rows[id].status;
      if (previous, Expired) !in ALLOWED_TRANSITIONS then (db, TransitionError) else
        (Billing(db.rows[id := db.rows[id].(status := Expired)],
                 Logged(db.log, id, Event(ExpiredNow, Some(previous), Expired))), Done)
  }

  datatype Op =
    | StartOp(user: nat, id: nat, trial: bool, snapshot: Snapshot)
    | RenewOp(id: nat, snapshot: Snapshot)
    | FailPaymentOp(id: nat, snapshot: Snapshot)
    | CancelOp(id: nat, immediately: bool, snapshot: Snapshot)
    | ExpireOp(id: nat)

  function Step(db: Billing, op: Op): (Billing, Outcome) {
    match op
    case StartOp(user, id, trial, snapshot) => Start(db, user, id, trial, snapshot)
    case RenewOp(id, snapshot) => Apply(db, id, snapshot, Some(Renewed))
    case FailPaymentOp(id, snapshot) => Apply(db, id, snapshot, None)
    case CancelOp(id, immediately, snapshot) =>
      Apply(db, id, snapshot, Some(if immediately then ExpiredNow else CancellationRequested))
    case ExpireOp(id) => Expire(db, id)
  }

  function Run(ops: seq<Op>): Billing {
    if ops == [] then Billing(map[], map[]) else
      var n := |ops| - 1;
      Step(Run(ops[..n]), ops[n]).0
  }

  // ----- the services, writing in place -----

  class Service {
    var rows: map<nat, Subscription>
    var log: map<nat, seq<Event>>

    function View(): Billing
      reads this
    {
      Billing(rows, log)
    }

    constructor ()
      ensures View() == Run([])
    {
      rows, log := map[], map[];
    }

    method StartSubscription(user: nat, id: nat, trial: bool, snapshot: Snapshot) returns (outcome: Outcome)
      modifies this
      ensures (View(), outcome) == Step(old(View()), StartOp(user, id, trial, snapshot))
    {
      if HasLive(rows, user) {
        return TransitionError;
      }
      if id in rows || (snapshot.status == Trialing && snapshot.trialEnd.None?) {
        return IntegrityError;
      }
      rows := rows[id :=
        Subscription(user, snapshot.status, snapshot.periodEnd, snapshot.trialEnd, snapshot.cancelAtPeriodEnd)];
      log := log[id := [Event(if trial then TrialStarted else Activated, None, snapshot.status)]];
      outcome := Done;
    }

    method ApplySnapshot(id: nat, snapshot: Snapshot, eventType: Option<EventType>) returns (outcome: Outcome)
      modifies this
      ensures (View(), outcome) == Apply(old(View()), id, snapshot, eventType)
    {
      if id !in rows {
        return NoSuchRow;
      }
      var subscription := rows[id];
      var previous := subscription.status;
      if (previous, snapshot.status) !in ALLOWED_TRANSITIONS {
        return TransitionError;
      }
      subscription := subscription.(status := snapshot.status);
      subscription := subscription.(periodEnd := snapshot.periodEnd);
      subscription := subscription.(cancelAtPeriodEnd := snapshot.cancelAtPeriodEnd);
      if snapshot.trialEnd.Some? {
        subscription := subscription.(trialEnd := snapshot.trialEnd);
      }
      rows := rows[id := subscription];
      var kind := if eventType.Some? then eventType.value else EVENT_FOR[snapshot.status];
      log := Logged(log, id, Event(kind, Some(previous), snapshot.status));
      outcome := Done;
    }

    method Renew(id: nat, snapshot: Snapshot) returns (outcome: Outcome)
      modifies this
      ensures (View(), outcome) == Step(old(View()), RenewOp(id, snapshot))
    {
      outcome := ApplySnapshot(id, snapshot, Some(Renewed));
    }

    method FailPayment(id: nat, snapshot: Snapshot) returns (outcome: Outcome)
      modifies this
      ensures (View(), outcome) == Step(old(View()), FailPaymentOp(id, snapshot))
    {
      outcome := ApplySnapshot(id, snapshot, None);
    }

    method Cancel(id: nat, immediately: bool, snapshot: Snapshot) returns (outcome: Outcome)
      modifies this
      ensures (View(), outcome) == Step(old(View()), CancelOp(id, immediately, snapshot))
    {
      outcome := ApplySnapshot(id, snapshot, Some(if immediately then ExpiredNow else CancellationRequested));
    }

    method ExpireSubscription(id: nat) returns (outcome: Outcome)
      modifies this
      ensures (View(), outcome) == Step(old(View()), ExpireOp(id))
    {
      if id !in rows {
        return NoSuchRow;
      }
      var previous := rows[id].status;
      if (previous, Expired) !in ALLOWED_TRANSITIONS {
        return TransitionError;
      }
      rows := rows[id := rows[id].(status := Expired)];
      log := Logged(log, id, Event(ExpiredNow, Some(previous), Expired));
      outcome := Done;
    }
  }

  // ----- what every run keeps -----

  /** A log from nothing to `status`: each event leaves, by a legal move, where the last one arrived. */
  predicate Chain(events: seq<Event>, status: Status) {
    && events != [] && events[0].fromStatus == None
    && (forall i :: 0 < i < |events| ==>
          events[i].fromStatus == Some(events[i - 1].toStatus)
          && (events[i - 1].toStatus, events[i].toStatus) in ALLOWED_TRANSITIONS)
    && events[|events| - 1].toStatus == status
  }

  ghost predicate OneLivePerUser(rows: map<nat, Subscription>) {
    forall i, j :: i in rows && j in rows && BothLive(rows[i], rows[j]) ==> i == j
  }

  predicate BothLive(s: Subscription, t: Subscription) {
    s.user == t.user && IsLive(s.status) && IsLive(t.status)
  }

  ghost predicate Sound(db: Billing) {
    && db.log.Keys == db.rows.Keys
    && OneLivePerUser(db.rows)
    && (forall id :: id in db.rows ==> Chain(db.log[id], db.rows[id].status))
    && (forall id :: id in db.rows && db.rows[id].status == Trialing ==> db.rows[id].trialEnd.Some?)
  }

  lemma ChainGrows(events: seq<Event>, status: Status, event: Event)
    requires Chain(events, status)
    requires event.fromStatus == Some(status) && (status, event.toStatus) in ALLOWED_TRANSITIONS
    ensures Chain(events + [event], event.toStatus)
  {
    hide ALLOWED_TRANSITIONS;
    var all := events + [event];
    forall i | 0 < i < |all|
      ensures all[i].fromStatus == Some(all[i - 1].toStatus)
      ensures (all[i - 1].toStatus, all[i].toStatus) in ALLOWED_TRANSITIONS
    {
      if i < |events| {
        assert all[i] == events[i] && all[i - 1] == events[i - 1];
      }
    }
  }

  /** A legal move never makes a row live that was not, and never makes a trial. */
  lemma MovesStayDead(s: Status, t: Status)
    requires (s, t) in ALLOWED_TRANSITIONS
    ensures IsLive(t) ==> IsLive(s)
    ensures t != Trialing && s != Expired
  {
  }

  lemma MoveKeepsSound(db: Billing, id: nat, row: Subscription, event: Event)
    requires Sound(db) && id in db.rows
    requires row.user == db.rows[id].user && (db.rows[id].status, row.status) in ALLOWED_TRANSITIONS
    requires event.fromStatus == Some(db.rows[id].status) && event.toStatus == row.status
    ensures Sound(Billing(db.rows[id := row], Logged(db.log, id, event)))
  {
    hide Chain, ALLOWED_TRANSITIONS;
    var rows := db.rows[id := row];
    MovesStayDead(db.rows[id].status, row.status);
    ChainGrows(db.log[id], db.rows[id].status, event);
    forall i, j | i in rows && j in rows && BothLive(rows[i], rows[j])
      ensures i == j
    {
      assert BothLive(db.rows[i], db.rows[j]);
    }
  }

  lemma StepKeepsSound(db: Billing, op: Op)
    requires Sound(db)
    ensures Sound(Step(db, op).0)
  {
    hide ALLOWED_TRANSITIONS, Chain, OneLivePerUser, EVENT_FOR;
    if Step(db, op).0 != db {
      match op
      case StartOp(user, id, trial, snapshot) => StartKeepsSound(db, user, id, trial, snapshot);
      case ExpireOp(id) =>
        MoveKeepsSound(db, id, db.rows[id].(status := Expired), Event(ExpiredNow, Some(db.rows[id].status), Expired));
      case RenewOp(id, snapshot) => ApplyKeepsSound(db, id, snapshot, Some(Renewed));
      case FailPaymentOp(id, snapshot) => ApplyKeepsSound(db, id, snapshot, None);
      case CancelOp(id, immediately, snapshot) =>
        ApplyKeepsSound(db, id, snapshot, Some(if immediately then ExpiredNow else CancellationRequested));
    }
  }

  lemma ApplyKeepsSound(db: Billing, id: nat, snapshot: Snapshot, eventType: Option<EventType>)
    requires Sound(db) && Apply(db, id, snapshot, eventType).1 == Done
    ensures Sound(Apply(db, id, snapshot, eventType).0)
  {
    hide Chain, OneLivePerUser;
    var kind := if eventType.Some? then eventType.value else EVENT_FOR[snapshot.status];
    MoveKeepsSound(db, id, Written(db.rows[id], snapshot), Event(kind, Some(db.rows[id].status), snapshot.status));
  }

  lemma StartKeepsSound(db: Billing, user: nat, id: nat, trial: bool, snapshot: Snapshot)
    requires Sound(db) && Start(db, user, id, trial, snapshot).1 == Done
    ensures Sound(Start(db, user, id, trial, snapshot).0)
  {
    var after := Start(db, user, id, trial, snapshot).0;
    forall i, j | i in after.rows && j in after.rows && BothLive(after.rows[i], after.rows[j])
      ensures i == j
    {
      if i != id && j != id {
        assert BothLive(db.rows[i], db.rows[j]);
      }
    }
  }

  lemma {:induction false} EveryRunIsSound(ops: seq<Op>)
    ensures Sound(Run(ops))
  {
    hide Step, Sound;
    if ops != [] {
      EveryRunIsSound(ops[..|ops| - 1]);
      StepKeepsSound(Run(ops[..|ops| - 1]), ops[|ops| - 1]);
    } else {
      NothingIsSound();
    }
  }

  lemma NothingIsSound()
    ensures Sound(Billing(map[], map[]))
  {
  }

  /** A trial is only ever how a row begins. */
  lemma {:induction false} TrialOnlyAtTheStart(ops: seq<Op>, id: nat, i: nat)
    requires id in Run(ops).rows
    ensures id in Run(ops).log
    ensures i < |Run(ops).log[id]| && Run(ops).log[id][i].toStatus == Trialing ==> i == 0
  {
    hide Run, Step;
    EveryRunIsSound(ops);
    if 0 < i < |Run(ops).log[id]| {
      MovesStayDead(Run(ops).log[id][i - 1].toStatus, Run(ops).log[id][i].toStatus);
    }
  }

  /** What one step may do to an existing row and its log. */
  ghost predicate Advances(before: Billing, after: Billing, id: nat)
    requires id in before.rows && id in before.log
  {
    && id in after.rows && id in after.log
    && before.log[id] <= after.log[id]
    && after.rows[id].user == before.rows[id].user
    && (before.rows[id].trialEnd.Some? ==> after.rows[id].trialEnd.Some?)
    && (before.rows[id].status == Expired ==> after.rows[id] == before.rows[id] && after.log[id] == before.log[id])
    && (IsLive(after.rows[id].status) ==> IsLive(before.rows[id].status))
  }

  lemma StepAdvances(db: Billing, op: Op, id: nat)
    requires Sound(db) && id in db.rows
    ensures Advances(db, Step(db, op).0, id)
  {
    hide Chain, OneLivePerUser, EVENT_FOR, HasLive, ALLOWED_TRANSITIONS;
    if Step(db, op).0 != db && !op.StartOp? && op.id == id {
      MovesStayDead(db.rows[id].status, Step(db, op).0.rows[id].status);
    }
  }

  /**
    History is append-only over any stretch of a run: the log of a row only grows, its user never changes,
    its trial end is never cleared, an expired row is final, and a row that stopped being live stays so.
  */
  lemma {:induction false} HistoryOnlyGrows(ops: seq<Op>, i: nat, j: nat, id: nat)
    requires i <= j <= |ops| && id in Run(ops[..i]).rows
    ensures id in Run(ops[..i]).log && Advances(Run(ops[..i]), Run(ops[..j]), id)
    decreases j
  {
    hide Run, Step, Chain;
    EveryRunIsSound(ops[..i]);
    if i < j {
      HistoryOnlyGrows(ops, i, j - 1, id);
      EveryRunIsSound(ops[..j - 1]);
      StepAdvances(Run(ops[..j - 1]), ops[j - 1], id);
      RunNext(ops, j - 1);
    }
  }

  lemma RunNext(ops: seq<Op>, i: nat)
    requires i < |ops|
    ensures Run(ops[..i + 1]) == Step(Run(ops[..i]), ops[i]).0
  {
    hide Step;
    assert ops[..i + 1][..i] == ops[..i];
  }

  /** Until when a row in the snapshot's state lets its user in; a move never ends in a trial. */
  predicate StillCovers(snapshot: Snapshot, now: Time, grace: nat) {
    match snapshot.status
    case Active => true
    case PastDue => now < snapshot.periodEnd + grace
    case Canceled => now < snapshot.periodEnd
    case Trialing => false
    case Expired => false
  }

  /** The ids of a user's rows, each once, as the database may list them. */
  ghost predicate ListsRowsOf(rows: map<nat, Subscription>, user: nat, ids: seq<nat>) {
    && Distinct(ids)
    && (forall id :: id in ids <==> id in rows && rows[id].user == user)
  }

  function RowsAt(rows: map<nat, Subscription>, ids: seq<nat>): seq<Subscription>
    requires forall i :: 0 <= i < |ids| ==> ids[i] in rows
  {
    seq(|ids|, i requires 0 <= i < |ids| => rows[ids[i]])
  }

  lemma ListStaysListed(db: Billing, id: nat, snapshot: Snapshot, eventType: Option<EventType>,
                        user: nat, ids: seq<nat>)
    requires Apply(db, id, snapshot, eventType).1 == Done && ListsRowsOf(db.rows, user, ids)
    ensures ListsRowsOf(Apply(db, id, snapshot, eventType).0.rows, user, ids)
    ensures forall i :: 0 <= i < |ids| ==> ids[i] in Apply(db, id, snapshot, eventType).0.rows
  {
    hide ALLOWED_TRANSITIONS, EVENT_FOR;
    assert forall i :: 0 <= i < |ids| ==> ids[i] in ids;
  }

  lemma SnapshotDecides(db: Billing, id: nat, snapshot: Snapshot, eventType: Option<EventType>, now: Time, grace: nat)
    requires Apply(db, id, snapshot, eventType).1 == Done
    ensures id in db.rows && Apply(db, id, snapshot, eventType).0.rows == db.rows[id := Written(db.rows[id], snapshot)]
    ensures DecideFor(Written(db.rows[id], snapshot), now, grace).allowed <==> StillCovers(snapshot, now, grace)
  {
  }

  /**
    What the provider's snapshot means for access: once it is written, the resolver over the user's rows, in
    any order, lets the user in exactly until the date it set, or while a grant or another row does.
  */
  lemma SnapshotSetsTheBoundary(db: Billing, id: nat, snapshot: Snapshot, eventType: Option<EventType>,
                                ids: seq<nat>, overrides: seq<Override>, now: Time, grace: nat)
    requires Apply(db, id, snapshot, eventType).1 == Done && id in db.rows
    requires ListsRowsOf(db.rows, db.rows[id].user, ids)
    ensures var after := Apply(db, id, snapshot, eventType).0.rows;
            var user := db.rows[id].user;
            && (forall i :: 0 <= i < |ids| ==> ids[i] in after)
            && (ResolveAccount(SignedIn(user, false), RowsAt(after, ids), overrides, now, grace).allowed <==>
                || StillCovers(snapshot, now, grace) || Covered(overrides, now)
                || exists other :: other in ids && other != id && DecideFor(db.rows[other], now, grace).allowed)
  {
    hide Apply, DecideFor, StillCovers, MostInformative, FirstAllowed;
    ListStaysListed(db, id, snapshot, eventType, db.rows[id].user, ids);
    SnapshotDecides(db, id, snapshot, eventType, now, grace);
    var after := Apply(db, id, snapshot, eventType).0.rows;
    AllowedBySomeRow(db.rows[id].user, after, ids, overrides, now, grace);
    assert id in ids;
    if StillCovers(snapshot, now, grace) {
      assert DecideFor(after[id], now, grace).allowed;
    }
    if other :| other in ids && other != id && DecideFor(db.rows[other], now, grace).allowed {
      assert after[other] == db.rows[other];
    }
  }

  lemma AllowedBySomeRow(user: nat, rows: map<nat, Subscription>, ids: seq<nat>, overrides: seq<Override>,
                         now: Time, grace: nat)
    requires forall i :: 0 <= i < |ids| ==> ids[i] in rows
    ensures ResolveAccount(SignedIn(user, false), RowsAt(rows, ids), overrides, now, grace).allowed <==>
            Covered(overrides, now) || exists id :: id in ids && DecideFor(rows[id], now, grace).allowed
  {
    hide DecideFor, MostInformative, FirstAllowed;
    var ds := Decisions(RowsAt(rows, ids), now, grace);
    NoneAllowed(ds);
    if FirstAllowed(ds).None? && ds != [] {
      RefusalsAreRanked(RowsAt(rows, ids), now, grace);
      assert MostInformative(ds) in ds;
    }
    if id :| id in ids && DecideFor(rows[id], now, grace).allowed {
      var i :| 0 <= i < |ids| && ids[i] == id;
      assert ds[i].allowed;
    }
    if FirstAllowed(ds).Some? {
      var i :| 0 <= i < |ds| && ds[i] == FirstAllowed(ds).value;
      assert ids[i] in ids;
    }
  }

  /** The nightly report never finds two live rows for one user. */
  lemma DuplicatesAreNeverReported(ops: seq<Op>, now: Time, grace: nat)
    ensures forall i :: 0 <= i < |Findings(Run(ops).rows, now, grace)| ==>
              Findings(Run(ops).rows, now, grace)[i].code != MultipleLiveSubscriptions
  {
    hide Run, Matching, Duplicated;
    EveryRunIsSound(ops);
    var rows := Run(ops).rows;
    DuplicatesReportedExactly(rows);
    forall i, j | i in rows && j in rows && i != j
      ensures !(rows[i].user == rows[j].user && IsLive(rows[i].status) && IsLive(rows[j].status))
    {
      assert !BothLive(rows[i], rows[j]);
    }
    ReportsHaveListedCodes(rows, CATEGORIES, now, grace);
  }

  lemma {:induction false} ReportsHaveListedCodes(rows: map<nat, Subscription>, categories: seq<(Code, bool)>,
                                                  now: Time, grace: nat)
    requires forall i :: 0 <= i < |categories| ==> categories[i].0 != MultipleLiveSubscriptions
    ensures forall i :: 0 <= i < |Reports(rows, categories, now, grace)| ==>
              Reports(rows, categories, now, grace)[i].code != MultipleLiveSubscriptions
  {
    hide Matching;
    if categories != [] {
      ReportsHaveListedCodes(rows, categories[..|categories| - 1], now, grace);
    }
  }

  // ----- which steps are accepted, and what they leave -----

  /** The table: a live row may go anywhere but into a trial or from unpaid to unpaid, and a canceled one may expire. */
  lemma MovesExactly(s: Status, t: Status)
    ensures (s, t) in ALLOWED_TRANSITIONS <==>
            (IsLive(s) && t != Trialing && !(s == PastDue && t == PastDue)) || (s == Canceled && t == Expired)
  {
  }

  /** Where an accepted step would take its row. */
  function Target(op: Op): Status {
    if op.ExpireOp? then Expired else op.snapshot.status
  }

  lemma AcceptedExactly(db: Billing, op: Op)
    ensures Step(db, op).1 == Done <==>
            if op.StartOp? then
              && op.id !in db.rows && (Target(op) == Trialing ==> op.snapshot.trialEnd.Some?)
              && forall id :: id in db.rows && db.rows[id].user == op.user ==> !IsLive(db.rows[id].status)
            else op.id in db.rows && (db.rows[op.id].status, Target(op)) in ALLOWED_TRANSITIONS
    ensures Step(db, op).1 != Done ==> Step(db, op).0 == db
  {
    hide ALLOWED_TRANSITIONS, EVENT_FOR;
  }

  /** Which refusal a step gets. */
  lemma RefusalsSayWhy(db: Billing, op: Op)
    requires Step(db, op).1 != Done
    ensures Step(db, op).1 ==
            if op.StartOp? then (if HasLive(db.rows, op.user) then TransitionError else IntegrityError)
            else if op.id in db.rows then TransitionError
            else NoSuchRow
  {
    hide ALLOWED_TRANSITIONS, EVENT_FOR, HasLive;
  }

  /** Why a step was taken, as the log will say. */
  function ReasonFor(op: Op): EventType {
    match op
    case StartOp(_, _, trial, _) => if trial then TrialStarted else Activated
    case RenewOp(_, _) => Renewed
    case CancelOp(_, immediately, _) => if immediately then ExpiredNow else CancellationRequested
    case ExpireOp(_) => ExpiredNow
    case FailPaymentOp(_, snapshot) =>
      if snapshot.status == PastDue then PaymentFailed
      else if snapshot.status == Canceled then CanceledNow
      else if snapshot.status == Expired then ExpiredNow
      else Activated
  }

  /** The row an accepted step leaves: what the provider said of it, and nothing else. */
  predicate LeavesRow(before: Billing, op: Op, row: Subscription) {
    && row.status == Target(op)
    && row.user == (if op.StartOp? then op.user else if op.id in before.rows then before.rows[op.id].user else row.user)
    && (if op.ExpireOp? then op.id in before.rows && row == before.rows[op.id].(status := Expired)
        else row.periodEnd == op.snapshot.periodEnd && row.cancelAtPeriodEnd == op.snapshot.cancelAtPeriodEnd
             && (op.snapshot.trialEnd.Some? ==> row.trialEnd == op.snapshot.trialEnd)
             && (op.snapshot.trialEnd.None? ==>
                   row.trialEnd == if op.id in before.rows then before.rows[op.id].trialEnd else None))
  }

  /** The event an accepted step writes. */
  function Logs(before: Billing, op: Op): Event {
    var from := if op.StartOp? || op.id !in before.rows then None else Some(before.rows[op.id].status);
    Event(ReasonFor(op), from, Target(op))
  }

  lemma AcceptedLeaves(db: Billing, op: Op)
    requires Sound(db) && Step(db, op).1 == Done
    ensures var after := Step(db, op).0;
            && op.id in after.rows && after.rows == db.rows[op.id := after.rows[op.id]]
            && LeavesRow(db, op, after.rows[op.id])
            && after.log == Logged(db.log, op.id, Logs(db, op))
  {
    hide Chain, OneLivePerUser, HasLive;
    if op.StartOp? {
      assert op.id !in db.log;
      assert [] + [Logs(db, op)] == [Logs(db, op)];
    } else {
      MovesExactly(db.rows[op.id].status, Target(op));
    }
  }

  /** The reasons of the accepted steps on one row, in order. */
  function ReasonsGiven(ops: seq<Op>, id: nat): seq<EventType> {
    if ops == [] then [] else
      var n := |ops| - 1;
      ReasonsGiven(ops[..n], id) +
        (if ops[n].id == id && Step(Run(ops[..n]), ops[n]).1 == Done then [ReasonFor(ops[n])] else [])
  }

  function Kinds(events: seq<Event>): (kinds: seq<EventType>)
    ensures |kinds| == |events|
  {
    seq(|events|, i requires 0 <= i < |events| => events[i].eventType)
  }

  /** A row's log is its history: one event for each accepted step on it, and its own reason. */
  lemma {:induction false} LogIsTheHistory(ops: seq<Op>, id: nat)
    ensures Kinds(if id in Run(ops).log then Run(ops).log[id] else []) == ReasonsGiven(ops, id)
  {
    if ops != [] {
      hide Step, Sound, ReasonFor, LeavesRow;
      var n := |ops| - 1;
      var before := Run(ops[..n]);
      LogIsTheHistory(ops[..n], id);
      EveryRunIsSound(ops[..n]);
      AcceptedExactly(before, ops[n]);
      if Step(before, ops[n]).1 == Done {
        AcceptedLeaves(before, ops[n]);
      }
    }
  }
}
