/**
  Safety of the transcript pipeline over every run: submissions, retries, redelivered webhooks and
  callbacks, edits, review steps, requests from learners and cache evictions, in any order and number.
*/
module TranscriptRuns {
  import opened Backoff
  import opened Options
  import opened Transcripts

  datatype Op =
    | RequestOp(key: Key, media: Media, retries: nat, maxRetries: nat, submission: Submission, now: Time)
    | ReceiveOp(result: JobResult)
    | DeliverOp(jobId: JobId)
    | EditOp(key: Key, position: nat, permitted: bool, text: Option<string>, startMs: Option<int>,
             endMs: Option<int>, now: Time)
    | StartReviewOp(key: Key, permitted: bool, now: Time)
    | ReopenOp(key: Key, permitted: bool, now: Time)
    | ApproveOp(key: Key, permitted: bool, reviewer: nat, now: Time)
    | GetOp(key: Key, access: Access, ifNoneMatch: Option<Version>)
    | EvictOp(version: Version)

  ghost function Step(db: Database, op: Op): (Database, Answer) {
    match op
    case RequestOp(key, media, retries, max, submission, now) => Request(db, key, media, retries, max, submission, now)
    case ReceiveOp(result) => Receive(db, result)
    case DeliverOp(jobId) => Deliver(db, jobId)
    case EditOp(key, position, permitted, text, start, end, now) =>
      Edit(db, key, position, permitted, text, start, end, now)
    case StartReviewOp(key, permitted, now) => Move(db, key, InReview, permitted, now)
    case ReopenOp(key, permitted, now) => Move(db, key, Machine, permitted, now)
    case ApproveOp(key, permitted, reviewer, now) => Approve(db, key, permitted, reviewer, now)
    case GetOp(key, access, ifNoneMatch) => Get(db, key, access, ifNoneMatch)
    case EvictOp(version) => Evict(db, version)
  }

  const EMPTY := Database(map[], map[], map[])

  /** The database after all of `ops`, starting from nothing. */
  ghost function Run(ops: seq<Op>): Database {
    if ops == [] then EMPTY else
      var n := |ops| - 1;
      Step(Run(ops[..n]), ops[n]).0
  }

  /** The database before step `i`, and the answer step `i` gives. */
  ghost function At(ops: seq<Op>, i: nat): Database
    requires i <= |ops|
  {
    Run(ops[..i])
  }

  ghost function AnswerAt(ops: seq<Op>, i: nat): Answer
    requires i < |ops|
  {
    Step(At(ops, i), ops[i]).1
  }

  lemma AtNext(ops: seq<Op>, i: nat)
    requires i < |ops|
    ensures At(ops, i + 1) == Step(At(ops, i), ops[i]).0
  {
    hide Step;
    assert ops[..i + 1][..i] == ops[..i];
  }

  // ----- the invariant -----

  predicate Worded(status: Status) {
    status == Machine || status == InReview || status == Approved
  }

  /** What a row's status says about its job, the stored callback and its segments. */
  predicate RowSound(t: Transcript, events: map<JobId, WebhookEvent>) {
    && (Worded(t.status) ==>
          t.jobId.Some? && t.jobId.value in events && events[t.jobId.value].result.status != JobFailed)
    && (t.status == Failed && HasJob(t) ==>
          t.jobId.value in events && events[t.jobId.value].result.status == JobFailed)
    && (!Worded(t.status) ==> t.segments == map[])
    && (t.status == Approved ==> t.segments != map[])
  }

  ghost predicate Sound(db: Database) {
    && Constrained(db)
    && (forall k :: k in db.transcripts ==> RowSound(db.transcripts[k], db.events))
  }

  /** Stored callbacks are only ever added to; marking one processed changes no result. */
  ghost predicate EventsKept(before: map<JobId, WebhookEvent>, after: map<JobId, WebhookEvent>) {
    forall j :: j in before ==> j in after && after[j].result == before[j].result
  }

  /** At most the row `key` changes, to `t`, and the events are kept: enough to stay sound. */
  lemma SoundAfterWrite(before: Database, key: Key, t: Transcript, after: Database)
    requires Sound(before)
    requires after.transcripts == before.transcripts[key := t] && EventsKept(before.events, after.events)
    requires RowConstrained(t) && (t.status == Approved ==> t.reviewedBy.Some? && t.approvedAt.Some?)
    requires forall k :: k in before.transcripts && k != key ==> !SameJob(t, before.transcripts[k])
    requires RowSound(t, after.events)
    ensures Sound(after)
  {
    hide RowConstrained;
    RowKeepsConstraints(before, key, t);
    assert Constrained(after) by {
      assert WithRow(before, key, t).transcripts == after.transcripts;
    }
    forall k | k in after.transcripts
      ensures RowSound(after.transcripts[k], after.events)
    {
      if k != key {
        assert RowSound(before.transcripts[k], before.events);
      }
    }
  }

  lemma SoundAfterNoWrite(before: Database, after: Database)
    requires Sound(before)
    requires after.transcripts == before.transcripts && EventsKept(before.events, after.events)
    ensures Sound(after)
  {
    hide RowConstrained;
    forall k | k in after.transcripts
      ensures RowSound(after.transcripts[k], after.events)
    {
      assert RowSound(before.transcripts[k], before.events);
    }
  }

  function RowOrFresh(db: Database, key: Key, now: Time): Transcript {
    if key in db.transcripts then db.transcripts[key] else Fresh(now)
  }

  lemma RowOrFreshIsSound(db: Database, key: Key, now: Time)
    requires Sound(db)
    ensures var t := RowOrFresh(db, key, now);
            RowConstrained(t) && RowSound(t, db.events) &&
            (t.status == Approved ==> t.reviewedBy.Some? && t.approvedAt.Some?)
  {
  }

  /** A submission writes one row, which keeps the segments; a new job id is nobody else's. */
  lemma RequestWrites(db: Database, key: Key, retries: nat, max: nat, submission: Submission, now: Time)
    ensures var after := Request(db, key, MediaReady, retries, max, submission, now).0;
            var t := RowOrFresh(db, key, now);
            && key in after.transcripts && after == WithRow(db, key, after.transcripts[key])
            && var row := after.transcripts[key];
               && row.segments == t.segments && row.reviewedBy == t.reviewedBy && row.approvedAt == t.approvedAt
               && row.updatedAt == t.updatedAt
               && (row.jobId == t.jobId ||
                   (row.jobId.Some? && row.status == Pending &&
                    !JobTaken(db.transcripts[key := t], key, row.jobId.value)))
               && (row.status == t.status || row.status == Pending || row.status == Failed)
               && (HasJob(t) || Worded(t.status) ==> row == t)
  {
    hide Truncate, RetryCountdown, JobTaken, FailedRow;
    var t := RowOrFresh(db, key, now);
    if !HasJob(t) && !Worded(t.status) && submission.Raised? {
      FailedRowKeeps(t, submission.message, retries);
    } else {
      FailedRowKeeps(t, "The provider refused the job.", retries);
    }
  }

  lemma FailedRowKeeps(t: Transcript, message: string, attempts: nat)
    ensures var row := FailedRow(t, message, attempts);
            && row.status == Failed && row.segments == t.segments && row.jobId == t.jobId
            && row.reviewedBy == t.reviewedBy && row.approvedAt == t.approvedAt && row.updatedAt == t.updatedAt
  {
  }

  lemma RequestKeepsSound(db: Database, key: Key, media: Media, retries: nat, max: nat,
                          submission: Submission, now: Time)
    requires Sound(db)
    ensures Sound(Request(db, key, media, retries, max, submission, now).0)
  {
    var after := Request(db, key, media, retries, max, submission, now).0;
    var t := RowOrFresh(db, key, now);
    if media.MediaReady? {
      hide Request, Constrained;
      RowOrFreshIsSound(db, key, now);
      RequestWrites(db, key, retries, max, submission, now);
      var row := after.transcripts[key];
      assert RowConstrained(row);
      RequestedJobIsUnique(db, key, t, row);
      assert row.status == Approved ==> row == t;
      SoundAfterWrite(db, key, row, after);
    }
  }

  lemma RequestedJobIsUnique(db: Database, key: Key, t: Transcript, row: Transcript)
    requires Constrained(db)
    requires key in db.transcripts ==> t == db.transcripts[key]
    requires key !in db.transcripts ==> t.jobId.None?
    requires row.jobId == t.jobId ||
             (row.jobId.Some? && !JobTaken(db.transcripts[key := t], key, row.jobId.value))
    ensures forall k :: k in db.transcripts && k != key ==> !SameJob(row, db.transcripts[k])
  {
    if row.jobId == t.jobId {
      if key in db.transcripts {
        JobStaysUnique(db, key, row);
      }
    } else {
      forall k | k in db.transcripts && k != key
        ensures !SameJob(row, db.transcripts[k])
      {
        assert k in db.transcripts[key := t];
      }
    }
  }

  /** A callback either leaves every transcript alone or writes the one its job belongs to. */
  lemma DeliverWrites(db: Database, jobId: JobId)
    requires Sound(db)
    ensures var after := Deliver(db, jobId).0;
            && EventsKept(db.events, after.events) && after.cache == db.cache
            && (after.transcripts == db.transcripts || DeliveryWrote(db, jobId, after))
  {
    hide Deliver, Constrained, RowSound, RowWritten;
    DeliverKeepsEvents(db, jobId);
    if Deliver(db, jobId).0.transcripts != db.transcripts {
      WritesForItsJob(db, jobId);
      var key := FindByJob(db.transcripts, jobId).value;
      FoundByJob(db.transcripts, jobId, key);
      DeliveredRow(db, jobId, key);
      assert WroteRow(db, jobId, Deliver(db, jobId).0, key);
    }
  }

  /** A delivery does nothing, or marks its event, or marks it and writes one row. */
  lemma DeliverShape(db: Database, jobId: JobId)
    ensures var after := Deliver(db, jobId).0;
            || after == db
            || (jobId in db.events &&
                (after == Processed(db, jobId) || exists key, t :: after == WithRow(Processed(db, jobId), key, t)))
  {
    hide FailedRow, TranscribedRow, Storable, FindByJob, Processed, WithRow;
  }

  lemma DeliverKeepsEvents(db: Database, jobId: JobId)
    ensures EventsKept(db.events, Deliver(db, jobId).0.events) && Deliver(db, jobId).0.cache == db.cache
  {
    hide Deliver;
    DeliverShape(db, jobId);
  }

  lemma WritesForItsJob(db: Database, jobId: JobId)
    requires Deliver(db, jobId).0.transcripts != db.transcripts
    ensures jobId in db.events && FindByJob(db.transcripts, jobId).Some?
  {
    hide FailedRow, TranscribedRow, Storable, FindByJob;
  }

  ghost predicate DeliveryWrote(db: Database, jobId: JobId, after: Database) {
    exists key :: WroteRow(db, jobId, after, key)
  }

  ghost predicate WroteRow(db: Database, jobId: JobId, after: Database, key: Key) {
    && jobId in db.events && key in db.transcripts && key in after.transcripts
    && db.transcripts[key].jobId == Some(jobId)
    && after.transcripts == db.transcripts[key := after.transcripts[key]]
    && RowWritten(db.transcripts[key], db.events[jobId].result, after.transcripts[key])
  }

  ghost predicate RowWritten(t: Transcript, result: JobResult, row: Transcript) {
    && t.status != InReview && t.status != Approved
    && row.jobId == t.jobId && row.updatedAt == t.updatedAt
    && row.reviewedBy == t.reviewedBy && row.approvedAt == t.approvedAt
    && (if result.status == JobFailed
        then row.status == Failed && row.segments == t.segments && row.confidence == t.confidence
        else row.status == Machine && Storable(result) && row.confidence == result.confidence
             && row.segments == RowsOf(result.segments))
  }

  lemma FoundByJob(transcripts: map<Key, Transcript>, jobId: JobId, key: Key)
    requires FindByJob(transcripts, jobId) == Some(key)
    ensures key in transcripts && transcripts[key].jobId == Some(jobId)
  {
  }

  lemma DeliveredRow(db: Database, jobId: JobId, key: Key)
    requires jobId in db.events && FindByJob(db.transcripts, jobId) == Some(key) && key in db.transcripts
    requires Deliver(db, jobId).0.transcripts != db.transcripts
    ensures var after := Deliver(db, jobId).0;
            && key in after.transcripts && after.transcripts == db.transcripts[key := after.transcripts[key]]
            && RowWritten(db.transcripts[key], db.events[jobId].result, after.transcripts[key])
  {
    hide Truncate, RowsOf, FindByJob, Acceptable;
  }

  lemma DeliverKeepsSound(db: Database, jobId: JobId)
    requires Sound(db)
    ensures Sound(Deliver(db, jobId).0)
  {
    hide Deliver, RowsOf, Acceptable, Constrained;
    var after := Deliver(db, jobId).0;
    DeliverWrites(db, jobId);
    if after.transcripts == db.transcripts {
      SoundAfterNoWrite(db, after);
    } else {
      var key :| WroteRow(db, jobId, after, key);
      var t, row := db.transcripts[key], after.transcripts[key];
      WrittenRowIsSound(db, jobId, key, row);
      JobStaysUnique(db, key, row);
      assert RowSound(row, after.events);
      SoundAfterWrite(db, key, row, after);
    }
  }

  lemma WrittenRowIsSound(db: Database, jobId: JobId, key: Key, row: Transcript)
    requires Sound(db) && jobId in db.events && key in db.transcripts
    requires db.transcripts[key].jobId == Some(jobId)
    requires RowWritten(db.transcripts[key], db.events[jobId].result, row)
    ensures RowConstrained(row) && row.status != Approved && RowSound(row, db.events)
  {
    hide RowsOf;
    var t := db.transcripts[key];
    assert RowConstrained(t) && RowSound(t, db.events);
    if row.status == Machine {
      RowsAreConstrained(db.events[jobId].result.segments);
    }
  }

  lemma EditKeepsSound(db: Database, key: Key, position: nat, permitted: bool, text: Option<string>,
                       startMs: Option<int>, endMs: Option<int>, now: Time)
    requires Sound(db)
    ensures Sound(Edit(db, key, position, permitted, text, startMs, endMs, now).0)
  {
    var after := Edit(db, key, position, permitted, text, startMs, endMs, now).0;
    if after != db {
      var t, row := db.transcripts[key], after.transcripts[key];
      assert RowConstrained(t) && RowSound(t, db.events);
      JobStaysUnique(db, key, row);
      SoundAfterWrite(db, key, row, after);
    }
  }

  lemma MoveKeepsSound(db: Database, key: Key, target: Status, permitted: bool, now: Time)
    requires Sound(db) && target != Approved
    ensures Sound(Move(db, key, target, permitted, now).0)
  {
    var after := Move(db, key, target, permitted, now).0;
    if after != db {
      var t, row := db.transcripts[key], after.transcripts[key];
      assert RowConstrained(t) && RowSound(t, db.events);
      JobStaysUnique(db, key, row);
      SoundAfterWrite(db, key, row, after);
    }
  }

  lemma ApproveKeepsSound(db: Database, key: Key, permitted: bool, reviewer: nat, now: Time)
    requires Sound(db)
    ensures Sound(Approve(db, key, permitted, reviewer, now).0)
  {
    var after := Approve(db, key, permitted, reviewer, now).0;
    if after != db {
      var t, row := db.transcripts[key], after.transcripts[key];
      assert RowConstrained(t) && RowSound(t, db.events);
      JobStaysUnique(db, key, row);
      SoundAfterWrite(db, key, row, after);
    }
  }

  /** A webhook only stores an event; a request or an eviction only touches the cache. */
  lemma QuietStepKeepsSound(db: Database, op: Op)
    requires Sound(db) && (op.ReceiveOp? || op.GetOp? || op.EvictOp?)
    ensures Sound(Step(db, op).0)
  {
    hide Sound, Rendered, Constrained;
    SoundAfterNoWrite(db, Step(db, op).0);
  }

  lemma StepKeepsSound(db: Database, op: Op)
    requires Sound(db)
    ensures Sound(Step(db, op).0)
  {
    hide Request, Deliver, Edit, Move, Approve, Receive, Get, Evict, Sound;
    match op
    case RequestOp(key, media, retries, max, submission, now) =>
      RequestKeepsSound(db, key, media, retries, max, submission, now);
    case DeliverOp(jobId) => DeliverKeepsSound(db, jobId);
    case EditOp(key, position, permitted, text, start, end, now) =>
      EditKeepsSound(db, key, position, permitted, text, start, end, now);
    case StartReviewOp(key, permitted, now) => MoveKeepsSound(db, key, InReview, permitted, now);
    case ReopenOp(key, permitted, now) => MoveKeepsSound(db, key, Machine, permitted, now);
    case ApproveOp(key, permitted, reviewer, now) => ApproveKeepsSound(db, key, permitted, reviewer, now);
    case _ => QuietStepKeepsSound(db, op);
  }

  lemma {:induction false} EveryRunIsSound(ops: seq<Op>)
    ensures Sound(Run(ops))
  {
    if ops != [] {
      hide Step, Sound;
      var n := |ops| - 1;
      EveryRunIsSound(ops[..n]);
      StepKeepsSound(Run(ops[..n]), ops[n]);
    }
  }

  // ----- one job, one outcome -----

  /** What no step ever does to an existing row. */
  ghost predicate RowMoves(t: Transcript, u: Transcript) {
    && (HasJob(t) ==> u.jobId == t.jobId)
    && (Worded(t.status) ==> Worded(u.status))
    && (t.status == Failed && HasJob(t) ==> u.status == Failed)
    && (t.status == Approved ==> u == t || u.status == InReview)
  }

  /** The step that approves `key` in the database `db`, with the row it leaves. */
  ghost predicate Approves(db: Database, op: Op, key: Key) {
    && op.ApproveOp? && op.key == key && op.permitted
    && key in db.transcripts && db.transcripts[key].status == InReview && db.transcripts[key].segments != map[]
  }

  ghost predicate IsApproved(db: Database, key: Key) {
    key in db.transcripts && db.transcripts[key].status == Approved
  }

  /** The review actions and the reads: the only approval is by the approving action. */
  lemma OtherStepsMoveRow(db: Database, op: Op, key: Key)
    requires !op.RequestOp? && !op.DeliverOp?
    ensures key in Step(db, op).0.transcripts <==> key in db.transcripts
    ensures key in db.transcripts ==>
              var t, u := db.transcripts[key], Step(db, op).0.transcripts[key];
              && RowMoves(t, u)
              && (u.status == Approved ==>
                    if Approves(db, op, key) then u == ApprovedRow(t, op.reviewer, op.now) else u == t)
  {
    hide Request, Deliver, GetOr, Rendered;
  }

  lemma StepMovesRow(db: Database, op: Op, key: Key)
    requires Sound(db) && key in db.transcripts
    ensures var after := Step(db, op).0;
            key in after.transcripts && RowMoves(db.transcripts[key], after.transcripts[key])
  {
    hide Request, Deliver, Edit, Move, Approve, Get, Constrained;
    match op
    case RequestOp(k, media, retries, max, submission, now) =>
      if media.MediaReady? {
        RequestWrites(db, k, retries, max, submission, now);
      } else {
        RequestOfUnready(db, op);
      }
    case DeliverOp(jobId) =>
      DeliverWrites(db, jobId);
      var after := Deliver(db, jobId).0;
      if after.transcripts != db.transcripts {
        var k :| WroteRow(db, jobId, after, k);
        assert RowSound(db.transcripts[k], db.events);
      }
    case _ => OtherStepsMoveRow(db, op, key);
  }

  lemma RequestOfUnready(db: Database, op: Op)
    requires op.RequestOp? && !op.media.MediaReady?
    ensures Step(db, op).0 == db
  {
  }

  /**
    Words once given are never lost to the provider, and a job that failed never gives words: whatever is
    delivered, redelivered, retried or reviewed between step `i` and step `j`.
  */
  lemma {:induction false} OneJobOneOutcome(ops: seq<Op>, i: nat, j: nat, key: Key)
    requires i <= j <= |ops| && key in At(ops, i).transcripts
    ensures key in At(ops, j).transcripts
    ensures var t, u := At(ops, i).transcripts[key], At(ops, j).transcripts[key];
            && (HasJob(t) ==> u.jobId == t.jobId)
            && (Worded(t.status) ==> Worded(u.status))
            && (t.status == Failed && HasJob(t) ==> u.status == Failed)
    decreases j
  {
    if i < j {
      hide Step, Sound, Run;
      OneJobOneOutcome(ops, i, j - 1, key);
      AtNext(ops, j - 1);
      EveryRunIsSound(ops[..j - 1]);
      StepMovesRow(At(ops, j - 1), ops[j - 1], key);
    }
  }

  lemma SubmittedRecordsJob(db: Database, op: Op)
    requires op.RequestOp? && Step(db, op).1 == Submitted
    ensures op.submission.Answered? && op.key in Step(db, op).0.transcripts
    ensures Step(db, op).0.transcripts[op.key].jobId == Some(op.submission.jobId)
    ensures Step(db, op).0.transcripts[op.key].status == Pending
    ensures op.key in db.transcripts ==> !HasJob(db.transcripts[op.key])
  {
    hide FailedRow, JobTaken, RetryCountdown;
  }

  ghost predicate SubmitsAt(db: Database, op: Op, key: Key) {
    op.RequestOp? && op.key == key && Step(db, op).1 == Submitted
  }

  lemma JobsComeFromSubmissions(db: Database, op: Op, key: Key)
    requires Sound(db)
    requires key in Step(db, op).0.transcripts && Step(db, op).0.transcripts[key].jobId.Some?
    ensures if SubmitsAt(db, op, key)
            then op.media.MediaReady? && op.submission.Answered?
                 && Step(db, op).0.transcripts[key].jobId == Some(op.submission.jobId)
            else key in db.transcripts && Step(db, op).0.transcripts[key].jobId == db.transcripts[key].jobId
  {
    hide Request, Deliver, Edit, Move, Approve, Get, Constrained;
    match op
    case DeliverOp(jobId) =>
      DeliverWrites(db, jobId);
      var after := Deliver(db, jobId).0;
      if after.transcripts != db.transcripts {
        var k :| WroteRow(db, jobId, after, k);
      }
    case RequestOp(_, _, _, _, _, _) => RequestRecordsJob(db, op, key);
    case _ => OthersKeepJobs(db, op, key);
  }

  lemma RequestRecordsJob(db: Database, op: Op, key: Key)
    requires op.RequestOp?
    requires key in Step(db, op).0.transcripts && Step(db, op).0.transcripts[key].jobId.Some?
    ensures if SubmitsAt(db, op, key)
            then op.media.MediaReady? && op.submission.Answered?
                 && Step(db, op).0.transcripts[key].jobId == Some(op.submission.jobId)
            else key in db.transcripts && Step(db, op).0.transcripts[key].jobId == db.transcripts[key].jobId
  {
    hide JobTaken, RetryCountdown, HasJob, Truncate;
  }

  lemma OthersKeepJobs(db: Database, op: Op, key: Key)
    requires !op.RequestOp? && !op.DeliverOp?
    ensures key in Step(db, op).0.transcripts ==>
              key in db.transcripts && Step(db, op).0.transcripts[key].jobId == db.transcripts[key].jobId
  {
    hide Request, Deliver, GetOr, Rendered;
  }

  /** The last submission before step `n`: the row's job is the one it recorded, for media ready at that moment. */
  lemma {:induction false} LastSubmission(ops: seq<Op>, n: nat, key: Key) returns (s: nat)
    requires n <= |ops| && key in At(ops, n).transcripts && At(ops, n).transcripts[key].jobId.Some?
    ensures s < n && SubmitsAt(At(ops, s), ops[s], key) && ops[s].media.MediaReady? && ops[s].submission.Answered?
    ensures At(ops, n).transcripts[key].jobId == Some(ops[s].submission.jobId)
    ensures forall m :: s < m < n ==> !SubmitsAt(At(ops, m), ops[m], key)
    decreases n
  {
    hide Step, Sound, SubmitsAt;
    assert n > 0;
    AtNext(ops, n - 1);
    EveryRunIsSound(ops[..n - 1]);
    JobsComeFromSubmissions(At(ops, n - 1), ops[n - 1], key);
    if SubmitsAt(At(ops, n - 1), ops[n - 1], key) {
      s := n - 1;
    } else {
      s := LastSubmission(ops, n - 1, key);
    }
  }

  /** A transcript is submitted once, whatever is redelivered or retried, unless its job came back without a name. */
  lemma OneSubmissionPerTranscript(ops: seq<Op>, i: nat, j: nat)
    requires i <= j < |ops| && ops[i].RequestOp? && ops[j].RequestOp? && ops[i].key == ops[j].key
    requires AnswerAt(ops, i) == Submitted && AnswerAt(ops, j) == Submitted
    ensures ops[i].submission.Answered? && (i == j || ops[i].submission.jobId == "")
  {
    hide Step, Run;
    SubmittedRecordsJob(At(ops, i), ops[i]);
    if i < j {
      AtNext(ops, i);
      OneJobOneOutcome(ops, i + 1, j, ops[i].key);
      SubmittedRecordsJob(At(ops, j), ops[j]);
    }
  }

  /** And exactly then: the next delivery submits again if and only if the recorded job id is empty. */
  lemma SubmittedAgainExactly(db: Database, op: Op, again: JobId, retries: nat, max: nat, now: Time)
    requires op.RequestOp? && Step(db, op).1 == Submitted
    requires !JobTaken(Step(db, op).0.transcripts, op.key, again)
    ensures op.submission.Answered?
    ensures var next := RequestOp(op.key, MediaReady, retries, max, Answered(again, false), now);
            Step(Step(db, op).0, next).1 == Submitted
            <==> op.submission.jobId == ""
  {
    hide FailedRow, JobTaken, RetryCountdown;
    SubmittedRecordsJob(db, op);
    var after := Step(db, op).0;
    assert after.transcripts[op.key := after.transcripts[op.key]] == after.transcripts;
  }

  /** A redelivered callback changes nothing the first delivery did not. */
  lemma CallbackIsIdempotent(db: Database, jobId: JobId)
    requires Sound(db)
    ensures Deliver(Deliver(db, jobId).0, jobId).0 == Deliver(db, jobId).0
  {
    hide RowsOf, Acceptable, Truncate, Constrained, RowSound, FindByJob;
    if jobId in db.events {
      var found := FindByJob(db.transcripts, jobId);
      if found.Some? && Deliver(db, jobId).0.transcripts != db.transcripts {
        FoundByJob(db.transcripts, jobId, found.value);
        DeliveredRow(db, jobId, found.value);
        DeliverKeepsSound(db, jobId);
        FindStays(db, Deliver(db, jobId).0, jobId, found.value);
      }
    }
  }

  lemma FindStays(db: Database, after: Database, jobId: JobId, key: Key)
    requires Sound(after) && key in after.transcripts && after.transcripts[key].jobId == Some(jobId)
    ensures FindByJob(after.transcripts, jobId) == Some(key)
  {
    FindByJobFinds(after.transcripts, jobId, key);
  }

  // ----- approval -----

  /** A row is approved after a step only by the approving step, or because it was and was left alone. */
  lemma ApprovedAfterStep(db: Database, op: Op, key: Key)
    requires Sound(db) && IsApproved(Step(db, op).0, key)
    ensures var row := Step(db, op).0.transcripts[key];
            if Approves(db, op, key) then row == ApprovedRow(db.transcripts[key], op.reviewer, op.now)
            else IsApproved(db, key) && row == db.transcripts[key]
  {
    hide Request, Deliver, Edit, Move, Approve, Get, Constrained;
    match op
    case RequestOp(k, media, retries, max, submission, now) =>
      if media.MediaReady? {
        RequestWrites(db, k, retries, max, submission, now);
      } else {
        RequestOfUnready(db, op);
      }
    case DeliverOp(jobId) =>
      DeliverWrites(db, jobId);
      var after := Deliver(db, jobId).0;
      if after.transcripts != db.transcripts {
        var k :| WroteRow(db, jobId, after, k);
      }
    case _ => OtherStepsMoveRow(db, op, key);
  }

  /** The last step that approved `key` before step `n`, given that it is approved there. */
  lemma {:induction false} LastApproval(ops: seq<Op>, n: nat, key: Key) returns (a: nat)
    requires n <= |ops| && IsApproved(At(ops, n), key)
    ensures a < n && Approves(At(ops, a), ops[a], key)
    ensures var before := At(ops, a).transcripts[key];
            forall m :: a < m <= n ==>
              key in At(ops, m).transcripts &&
              At(ops, m).transcripts[key] == ApprovedRow(before, ops[a].reviewer, ops[a].now)
    decreases n
  {
    hide Step, Sound, Approves;
    assert n > 0;
    AtNext(ops, n - 1);
    EveryRunIsSound(ops[..n - 1]);
    ApprovedAfterStep(At(ops, n - 1), ops[n - 1], key);
    if Approves(At(ops, n - 1), ops[n - 1], key) {
      a := n - 1;
    } else {
      a := LastApproval(ops, n - 1, key);
    }
  }

  /**
    An approved transcript is signed by the reviewer of its last approval, has segments, and they are
    exactly the ones that reviewer had before them: no edit or callback since has touched the row.
  */
  lemma ApprovedMeansSigned(ops: seq<Op>, key: Key) returns (a: nat)
    requires IsApproved(Run(ops), key)
    ensures a < |ops| && Approves(At(ops, a), ops[a], key)
    ensures var t := Run(ops).transcripts[key];
            && t.segments == At(ops, a).transcripts[key].segments && t.segments != map[]
            && t.reviewedBy == Some(ops[a].reviewer) && t.approvedAt == Some(ops[a].now)
            && t.updatedAt == ops[a].now
    ensures forall m :: a < m <= |ops| ==>
              key in At(ops, m).transcripts && At(ops, m).transcripts[key] == Run(ops).transcripts[key]
  {
    assert ops[..|ops|] == ops;
    a := LastApproval(ops, |ops|, key);
  }
}
