/**
  Who may make each step of the transcript pipeline, when it is accepted, and what it leaves; and the stored
  callbacks as the history of what was received and delivered.
*/
module TranscriptSteps {
  import opened Backoff
  import opened Options
  import opened Rendering
  import opened Transcripts
  import opened TranscriptRuns
  import opened TranscriptCache
  import Entitlements

  // ----- submission -----

  /** A submission the task would make: the media is ready, and nothing has been ordered or given yet. */
  predicate CanSubmit(db: Database, op: Op) {
    && op.RequestOp? && op.media.MediaReady?
    && (op.key in db.transcripts ==>
          !HasJob(db.transcripts[op.key]) && db.transcripts[op.key].status in {Pending, Failed})
  }

  predicate JobOfAnother(db: Database, key: Key, jobId: JobId) {
    exists k :: k in db.transcripts && k != key && db.transcripts[k].jobId == Some(jobId)
  }

  /** A job is recorded exactly when the provider took it and no other transcript has it. */
  lemma SubmittedExactly(db: Database, op: Op)
    requires op.RequestOp?
    ensures Step(db, op).1 == Submitted <==>
            CanSubmit(db, op) && op.submission.Answered? && !op.submission.refused
            && !JobOfAnother(db, op.key, op.submission.jobId)
    ensures Step(db, op).1 == Submitted ==>
              op.key in Step(db, op).0.transcripts &&
              var row := Step(db, op).0.transcripts[op.key];
              row == RowOrFresh(db, op.key, op.now).(jobId := row.jobId, status := Pending, errorMessage := "")
  {
    hide FailedRow, RetryCountdown, JobTaken, JobOfAnother;
    if op.submission.Answered? {
      OthersAreOthers(db, op.key, RowOrFresh(db, op.key, op.now), op.submission.jobId);
      var t := RowOrFresh(db, op.key, op.now);
      assert CanSubmit(db, op) <==> op.media.MediaReady? && !HasJob(t) && !Worded(t.status);
      assert Step(db, op).1 == Submitted ==> !HasJob(t);
      assert Step(db, op).1 == Submitted ==> !JobTaken(db.transcripts[op.key := t], op.key, op.submission.jobId);
    }
  }

  lemma OthersAreOthers(db: Database, key: Key, t: Transcript, jobId: JobId)
    ensures JobTaken(db.transcripts[key := t], key, jobId) <==> JobOfAnother(db, key, jobId)
  {
    var after := db.transcripts[key := t];
    assert forall k :: k != key ==> (k in after <==> k in db.transcripts);
    assert forall k :: k != key && k in db.transcripts ==> after[k] == db.transcripts[k];
  }

  function Min2000(n: nat): nat {
    if n < 2000 then n else 2000
  }

  /** A refusal by the provider, or one failure too many, is recorded with its reason; before that, only the count. */
  lemma SubmissionFailsExactly(db: Database, op: Op)
    requires CanSubmit(db, op)
    ensures var t := RowOrFresh(db, op.key, op.now);
            var (after, answer) := Step(db, op);
            && op.key in after.transcripts
            && (op.key !in db.transcripts ==>
                  t == Transcript(Pending, None, map[], None, None, None, op.now, "", 0))
            && var row := after.transcripts[op.key];
               && (answer == ProviderRefused <==> op.submission.Answered? && op.submission.refused)
               && (answer == ProviderRefused ==> row.errorMessage != "")
               && (answer == DeadLettered <==> op.submission.Raised? && op.retries >= op.maxRetries)
               && (answer == DeadLettered ==> row.errorMessage <= op.submission.message
                                              && |row.errorMessage| == Min2000(|op.submission.message|))
               && (answer in {ProviderRefused, DeadLettered} ==>
                     row == t.(status := Failed, errorMessage := row.errorMessage, retryCount := op.retries))
               && (answer.RetryIn? <==> op.submission.Raised? && op.retries < op.maxRetries)
               && (answer.RetryIn? ==> answer.seconds == RetryCountdown(op.retries + 1)
                                       && row == t.(retryCount := op.retries + 1))
  {
    hide JobTaken, RetryCountdown;
  }

  /** A submission that is not made says why, and writes nothing over what is there. */
  lemma NotSubmittedBecause(db: Database, op: Op)
    requires op.RequestOp?
    ensures var (after, answer) := Step(db, op);
            && (answer == Gone <==> op.media.MediaGone?)
            && (answer == NotReady <==> op.media.MediaNotReady?)
            && (answer == AlreadySubmitted <==>
                  op.media.MediaReady? && op.key in db.transcripts && HasJob(db.transcripts[op.key]))
            && (answer == AlreadyTranscribed <==>
                  op.media.MediaReady? && op.key in db.transcripts && !HasJob(db.transcripts[op.key])
                  && Worded(db.transcripts[op.key].status))
            && (answer in {Gone, NotReady, AlreadySubmitted, AlreadyTranscribed} ==> after == db)
            && (answer == IntegrityError ==> after == WithRow(db, op.key, RowOrFresh(db, op.key, op.now)))
  {
    hide FailedRow, RetryCountdown, JobTaken;
    if op.key in db.transcripts {
      assert db.transcripts[op.key := db.transcripts[op.key]] == db.transcripts;
    }
  }

  /** What a chain of deliveries comes to: how many there were, the seconds waited between them, and its last answer. */
  datatype Chain = Chain(attempts: nat, waited: nat, answer: Answer)

  /** The task from its `retries`-th attempt; anything may happen in between, so each meets an arbitrary database. */
  ghost function Attempts(met: seq<Database>, ops: seq<Op>, retries: nat, maxRetries: nat): Chain
    requires retries <= maxRetries && |met| == |ops| == maxRetries + 1
    decreases maxRetries - retries
  {
    var answer := Step(met[retries], ops[retries]).1;
    if answer.RetryIn? && retries < maxRetries then
      var rest := Attempts(met, ops, retries + 1, maxRetries);
      Chain(rest.attempts + 1, rest.waited + answer.seconds, rest.answer)
    else Chain(1, 0, answer)
  }

  /** An outage of the transcription provider costs every attempt, the whole back-off, and one dead letter. */
  lemma {:induction false} OutageDeadLetters(met: seq<Database>, ops: seq<Op>, retries: nat, maxRetries: nat)
    requires retries <= maxRetries && |met| == |ops| == maxRetries + 1
    requires forall k :: retries <= k <= maxRetries ==> FailsAtAttempt(met[k], ops[k], k, maxRetries)
    ensures var c := Attempts(met, ops, retries, maxRetries);
            && c.attempts == maxRetries - retries + 1 && c.answer == DeadLettered
            && c.waited == 20 * (Power2(maxRetries) - Power2(retries))
    decreases maxRetries - retries
  {
    hide Step;
    assert FailsAtAttempt(met[retries], ops[retries], retries, maxRetries);
    SubmissionFailsExactly(met[retries], ops[retries]);
    if retries < maxRetries {
      OutageDeadLetters(met, ops, retries + 1, maxRetries);
    }
  }

  predicate FailsAtAttempt(db: Database, op: Op, retries: nat, maxRetries: nat) {
    CanSubmit(db, op) && op.submission.Raised? && op.retries == retries && op.maxRetries == maxRetries
  }

  // ----- callbacks -----

  /** A stored callback is the first one received for its job, whatever came after. */
  lemma {:induction false} FirstResultIsKept(ops: seq<Op>, n: nat, jobId: JobId) returns (i: nat)
    requires n <= |ops|
    ensures jobId in At(ops, n).events <==> exists k :: 0 <= k < n && Receives(ops[k], jobId)
    ensures jobId in At(ops, n).events ==>
              && i < n && Receives(ops[i], jobId) && At(ops, n).events[jobId].result == ops[i].result
              && forall k :: 0 <= k < i ==> !Receives(ops[k], jobId)
    decreases n
  {
    hide Step, Run;
    i := 0;
    if n == 0 {
      NothingStoredAtFirst(ops, jobId);
    } else {
      AtNext(ops, n - 1);
      EventsAfter(At(ops, n - 1), ops[n - 1], jobId);
      i := FirstResultIsKept(ops, n - 1, jobId);
      if jobId !in At(ops, n - 1).events {
        i := n - 1;
      }
    }
  }

  predicate Receives(op: Op, jobId: JobId) {
    op.ReceiveOp? && op.result.jobId == jobId
  }

  /** A delivery that ends with the event marked: every one but of a lost event, or of a result the tables refuse. */
  ghost predicate Finishes(db: Database, op: Op, jobId: JobId) {
    op == DeliverOp(jobId) && Step(db, op).1 != Gone && Step(db, op).1 != IntegrityError
  }

  lemma NothingStoredAtFirst(ops: seq<Op>, jobId: JobId)
    ensures jobId !in At(ops, 0).events
  {
    assert ops[..0] == [];
  }

  lemma EventsAfter(db: Database, op: Op, jobId: JobId)
    ensures var after := Step(db, op).0.events;
            && (jobId in after <==> jobId in db.events || Receives(op, jobId))
            && (jobId in db.events ==> after[jobId].result == db.events[jobId].result)
            && (jobId in db.events ==>
                  (after[jobId].processed <==> db.events[jobId].processed || Finishes(db, op, jobId)))
            && (jobId !in db.events && Receives(op, jobId) ==> after[jobId] == WebhookEvent(op.result, false))
  {
    hide Request, Deliver, Rendered, EditedRow, GetOr;
    match op
    case RequestOp(key, media, retries, max, submission, now) =>
      RequestKeepsEvents(db, key, media, retries, max, submission, now);
    case DeliverOp(other) => DeliveryMarks(db, other);
    case _ =>
  }

  lemma DeliveryMarks(db: Database, jobId: JobId)
    ensures var (after, answer) := Deliver(db, jobId);
            && (answer == Gone <==> jobId !in db.events)
            && after.events == if answer == Gone || answer == IntegrityError then db.events
                               else db.events[jobId := db.events[jobId].(processed := true)]
  {
    hide FailedRow, TranscribedRow, Storable, FindByJob;
  }

  lemma RequestKeepsEvents(db: Database, key: Key, media: Media, retries: nat, max: nat,
                           submission: Submission, now: Time)
    ensures Request(db, key, media, retries, max, submission, now).0.events == db.events
  {
    hide FailedRow, RetryCountdown, JobTaken;
  }

  /** An event is marked processed exactly when some delivery of it ran to its end. */
  lemma {:induction false} ProcessedExactly(ops: seq<Op>, n: nat, jobId: JobId)
    requires n <= |ops| && jobId in At(ops, n).events
    ensures At(ops, n).events[jobId].processed <==> exists k :: 0 <= k < n && Finishes(At(ops, k), ops[k], jobId)
    decreases n
  {
    hide Step, Run, Finishes;
    if n == 0 {
      NothingStoredAtFirst(ops, jobId);
    } else {
      AtNext(ops, n - 1);
      EventsAfter(At(ops, n - 1), ops[n - 1], jobId);
      if jobId in At(ops, n - 1).events {
        ProcessedExactly(ops, n - 1, jobId);
      } else {
        forall k | 0 <= k < n
          ensures !Finishes(At(ops, k), ops[k], jobId)
        {
          UnstoredUntil(ops, k, n - 1, jobId);
          UnstoredIsGone(At(ops, k), ops[k], jobId);
        }
      }
    }
  }

  lemma {:induction false} UnstoredUntil(ops: seq<Op>, k: nat, n: nat, jobId: JobId)
    requires k <= n <= |ops| && jobId !in At(ops, n).events
    ensures jobId !in At(ops, k).events
    decreases n
  {
    hide Step, Run;
    if k < n {
      AtNext(ops, n - 1);
      EventsAfter(At(ops, n - 1), ops[n - 1], jobId);
      UnstoredUntil(ops, k, n - 1, jobId);
    }
  }

  lemma UnstoredIsGone(db: Database, op: Op, jobId: JobId)
    requires jobId !in db.events
    ensures !Finishes(db, op, jobId)
  {
  }

  lemma {:induction false} RowsAreFewerWhenDoubled(segments: seq<Segment>)
    ensures |RowsOf(segments)| <= |segments|
    ensures |RowsOf(segments)| == |segments| ==>
              forall i, j :: 0 <= i < j < |segments| ==> segments[i].position != segments[j].position
  {
    if segments != [] {
      var n := |segments| - 1;
      RowsAreFewerWhenDoubled(segments[..n]);
      RowsHoldPositions(segments[..n]);
      assert forall i :: 0 <= i < n ==> segments[..n][i] == segments[i];
    }
  }

  lemma {:induction false} RowsHoldPositions(segments: seq<Segment>)
    ensures forall i :: 0 <= i < |segments| ==> segments[i].position in RowsOf(segments)
  {
    if segments != [] {
      var n := |segments| - 1;
      RowsHoldPositions(segments[..n]);
      assert forall i :: 0 <= i < n ==> segments[..n][i] == segments[i];
    }
  }

  lemma {:induction false} LastOfPosition(segments: seq<Segment>, k: nat)
    requires k < |segments|
    requires forall i :: k < i < |segments| ==> segments[i].position != segments[k].position
    ensures segments[k].position in RowsOf(segments)
    ensures RowAsSegment(RowsOf(segments), segments[k].position) == segments[k]
  {
    var n := |segments| - 1;
    if k < n {
      LastOfPosition(segments[..n], k);
    }
  }

  /** A result is storable exactly when its rows lose no segment, each has a span, and confidence is a proportion. */
  lemma StorableExactly(result: JobResult)
    ensures Storable(result) <==>
            && |RowsOf(result.segments)| == |result.segments|
            && (forall p :: p in RowsOf(result.segments) ==>
                  0 <= RowsOf(result.segments)[p].startMs < RowsOf(result.segments)[p].endMs)
            && (result.confidence == None || 0 <= result.confidence.value <= 1000)
  {
    var segments := result.segments;
    RowsAreFewerWhenDoubled(segments);
    if Storable(result) {
      RowsHoldEverySegment(segments);
      RowsAreConstrained(segments);
    }
    if |RowsOf(segments)| == |segments|
       && forall p :: p in RowsOf(segments) ==> 0 <= RowsOf(segments)[p].startMs < RowsOf(segments)[p].endMs {
      forall i | 0 <= i < |segments|
        ensures 0 <= segments[i].startMs < segments[i].endMs
      {
        LastOfPosition(segments, i);
      }
    }
  }

  /** What each delivery is answered, and what it leaves on the row of its job. */
  lemma DeliveredExactly(db: Database, jobId: JobId, key: Key)
    requires Sound(db) && key in db.transcripts && db.transcripts[key].jobId == Some(jobId) && jobId in db.events
    ensures var t, result := db.transcripts[key], db.events[jobId].result;
            var (after, answer) := Deliver(db, jobId);
            && key in after.transcripts
            && (answer == RefusedReviewed <==> t.status in {InReview, Approved})
            && (answer == RecordedFailure <==> t.status !in {InReview, Approved} && result.status == JobFailed)
            && (answer == Transcribed <==>
                  t.status !in {InReview, Approved} && result.status != JobFailed && Storable(result))
            && (answer == IntegrityError <==>
                  t.status !in {InReview, Approved} && result.status != JobFailed && !Storable(result))
            && (answer == RecordedFailure ==>
                  after.transcripts[key].errorMessage != "" &&
                  after.transcripts[key] ==
                    t.(status := Failed, retryCount := 0, errorMessage := after.transcripts[key].errorMessage))
            && (answer == Transcribed ==>
                  after.transcripts[key] == t.(segments := RowsOf(result.segments), status := Machine,
                                               confidence := result.confidence, errorMessage := ""))
            && (answer in {RefusedReviewed, IntegrityError} ==> after.transcripts == db.transcripts)
  {
    hide RowsOf, Storable, FindByJob, RowConstrained;
    FindByJobFinds(db.transcripts, jobId, key);
    assert |"The provider failed to transcribe this audio."| <= 2000;
  }

  /** A callback for a job nobody has writes no transcript. */
  lemma UnknownJobExactly(db: Database, jobId: JobId)
    requires jobId in db.events
    ensures Deliver(db, jobId).1 == UnknownJob <==>
            forall key :: key in db.transcripts ==> db.transcripts[key].jobId != Some(jobId)
    ensures Deliver(db, jobId).1 == UnknownJob ==> Deliver(db, jobId).0.transcripts == db.transcripts
  {
    hide RowsOf, Storable, Truncate;
  }

  // ----- review -----

  /** An edit is accepted from those who may review, on a transcript that has words, if the merged cue has a span. */
  lemma EditSavedExactly(db: Database, op: Op)
    requires op.EditOp?
    ensures Step(db, op).1 == Saved <==>
            && op.permitted && op.key in db.transcripts && op.position in db.transcripts[op.key].segments
            && Worded(db.transcripts[op.key].status)
            && var was := db.transcripts[op.key].segments[op.position];
               var start := if op.startMs.Some? then op.startMs.value else was.startMs;
               var end := if op.endMs.Some? then op.endMs.value else was.endMs;
               0 <= start < end
    ensures Step(db, op).1 != Saved ==> Step(db, op).0 == db
  {
  }

  /** A review is opened from the machine's words or on approved ones, and closed again only while it is open. */
  lemma MovesExactly(db: Database, op: Op)
    requires op.StartReviewOp? || op.ReopenOp?
    ensures Step(db, op).1 == Saved <==>
            op.permitted && op.key in db.transcripts &&
            if op.StartReviewOp? then db.transcripts[op.key].status in {Machine, Approved}
            else db.transcripts[op.key].status == InReview
    ensures Step(db, op).1 == Saved ==>
              Step(db, op).0 == WithRow(db, op.key, db.transcripts[op.key].(
                status := if op.StartReviewOp? then InReview else Machine, updatedAt := op.now))
    ensures Step(db, op).1 != Saved ==> Step(db, op).0 == db
  {
  }

  /** Only a permitted reviewer approves, only what is in review and has words; and the row says who and when. */
  lemma ApprovedExactly(db: Database, op: Op)
    requires op.ApproveOp?
    ensures Step(db, op).1 == Saved <==> Approves(db, op, op.key)
    ensures Step(db, op).1 == Saved ==>
              op.key in db.transcripts &&
              Step(db, op).0 == WithRow(db, op.key, db.transcripts[op.key].(
                status := Approved, reviewedBy := Some(op.reviewer), approvedAt := Some(op.now), updatedAt := op.now))
    ensures Step(db, op).1 != Saved ==> Step(db, op).0 == db
  {
  }

  /** Which refusal a review step gets: nobody without permission learns what state the transcript is in. */
  lemma ReviewRefusalsSayWhy(db: Database, op: Op)
    requires IsReview(op) && Step(db, op).1 != Saved
    ensures var known := op.key in db.transcripts && (op.EditOp? ==> op.position in db.transcripts[op.key].segments);
            Step(db, op).1 ==
              if !known then NotFound
              else if !op.permitted then NotYours
              else if op.EditOp? && db.transcripts[op.key].status in {Pending, Failed} then NotEditable
              else if op.EditOp? && GetOr(op.endMs, db.transcripts[op.key].segments[op.position].endMs)
                                    <= GetOr(op.startMs, db.transcripts[op.key].segments[op.position].startMs)
              then InvalidSpan
              else if op.EditOp? then IntegrityError
              else if op.ApproveOp? && db.transcripts[op.key].status == InReview then NothingToApprove
              else InvalidTransition
  {
    match op
    case EditOp(_, _, _, _, _, _, _) => EditSavedExactly(db, op);
    case StartReviewOp(_, _, _) => MovesExactly(db, op);
    case ReopenOp(_, _, _) => MovesExactly(db, op);
    case ApproveOp(_, _, _, _) => ApprovedExactly(db, op);
  }

  predicate IsReview(op: Op) {
    op.EditOp? || op.StartReviewOp? || op.ReopenOp? || op.ApproveOp?
  }

  /** A transcript's version moves with every accepted review step on it, and with nothing else. */
  lemma StampMovesExactly(db: Database, op: Op, key: Key)
    requires Sound(db) && key in db.transcripts
    ensures key in Step(db, op).0.transcripts
    ensures Step(db, op).0.transcripts[key].updatedAt ==
            if IsReview(op) && op.key == key && Step(db, op).1 == Saved then op.now else db.transcripts[key].updatedAt
  {
    hide Request, Deliver, Edit, Move, Approve, Get, Constrained;
    match op
    case RequestOp(k, media, retries, max, submission, now) =>
      if media.MediaReady? {
        RequestWrites(db, k, retries, max, submission, now);
      } else {
        RequestOfUnready(db, op);
      }
    case DeliverOp(jobId) =>
      DeliverWrites(db, jobId);
      var after := Deliver(db, jobId).0;
      if after.transcripts != db.transcripts {
        var k :| WroteRow(db, jobId, after, k);
      }
    case _ => ReviewMovesStamp(db, op, key);
  }

  lemma ReviewMovesStamp(db: Database, op: Op, key: Key)
    requires !op.RequestOp? && !op.DeliverOp? && key in db.transcripts
    ensures key in Step(db, op).0.transcripts
    ensures Step(db, op).0.transcripts[key].updatedAt ==
            if IsReview(op) && op.key == key && Step(db, op).1 == Saved then op.now else db.transcripts[key].updatedAt
  {
    hide Request, Deliver, Rendered, GetOr;
  }

  // ----- who is served -----

  /** A learner is answered with subtitles, or that theirs are still good, exactly when let in and there are some. */
  lemma ServedExactly(db: Database, key: Key, access: Access, ifNoneMatch: Option<Version>)
    requires Constrained(db)
    ensures var (after, answer) := Get(db, key, access, ifNoneMatch);
            && (access.Hidden? ==> after == db && answer == NotFound)
            && (access.Refused? ==> after == db && answer == EntitlementDenied)
            && (answer.Vtt200? || answer.NotModified? <==> access.Granted? && IsApproved(db, key))
            && (answer.NotModified? <==>
                  access.Granted? && IsApproved(db, key)
                  && ifNoneMatch == Some(Version(key, db.transcripts[key].updatedAt)))
            && (answer.Vtt200? ==> answer.etag == Version(key, db.transcripts[key].updatedAt)
                                   && after == db.(cache := db.cache[answer.etag := answer.body]))
            && (!answer.Vtt200? ==> after == db)
  {
    hide Rendered, JobsUnique;
    if IsApproved(db, key) {
      assert RowConstrained(db.transcripts[key]);
      PrintingNeverFails(db.transcripts[key]);
      var version := Version(key, db.transcripts[key].updatedAt);
      if version in db.cache {
        assert db.cache[version := db.cache[version]] == db.cache;
      }
    }
  }

  /** What a request finds before any transcript: whether the lesson can be seen, and then the resolver's decision. */
  function AccessOf(visible: bool, decision: Entitlements.Decision): Access {
    if !visible then Hidden else if !decision.allowed then Refused else Granted
  }

  /**
    In every run, with every grant begun: who is served a lesson's subtitles. The lesson is one they can see,
    its subtitles are approved, and it is a preview, theirs, open to them as administrators, or within the
    latest boundary of their rows and grants.
  */
  lemma WhoIsServedSubtitles(ops: seq<Op>, n: nat, key: Key, visible: bool, ifNoneMatch: Option<Version>,
                             caller: Entitlements.Caller, lesson: Entitlements.Lesson,
                             rows: seq<Entitlements.Subscription>, overrides: seq<Entitlements.Override>,
                             now: Entitlements.Time, grace: nat)
    requires n <= |ops| && forall i :: 0 <= i < |overrides| ==> overrides[i].startsAt <= now
    ensures var access := AccessOf(visible, Entitlements.ResolveAccess(caller, lesson, rows, overrides, now, grace));
            var answer := Get(At(ops, n), key, access, ifNoneMatch).1;
            var horizon := Entitlements.Later(Entitlements.RowsHorizon(rows, grace),
                                              Entitlements.OverridesHorizon(overrides));
            answer.Vtt200? || answer.NotModified? <==>
              visible && IsApproved(At(ops, n), key) &&
              (lesson.isPreview ||
               (caller.SignedIn? && (lesson.instructor == caller.id || caller.administrator ||
                                     Entitlements.Before(now, horizon))))
  {
    hide Run, Get;
    hide Entitlements.ResolveAccess, Entitlements.RowsHorizon, Entitlements.OverridesHorizon;
    EveryRunIsSound(ops[..n]);
    Entitlements.WhoMaySeeALesson(caller, lesson, rows, overrides, now, grace);
    var access := AccessOf(visible, Entitlements.ResolveAccess(caller, lesson, rows, overrides, now, grace));
    ServedExactly(At(ops, n), key, access, ifNoneMatch);
  }

  /** An entry leaves the cache only by its own eviction, and is never overwritten. */
  lemma {:induction false} CachedUntilEvicted(ops: seq<Op>, i: nat, n: nat, version: Version)
    requires i <= n <= |ops| && version in At(ops, i).cache
    requires forall m :: i <= m < n ==> ops[m] != EvictOp(version)
    ensures version in At(ops, n).cache && At(ops, n).cache[version] == At(ops, i).cache[version]
    decreases n
  {
    if i < n {
      hide Step, Run;
      CachedUntilEvicted(ops, i, n - 1, version);
      AtNext(ops, n - 1);
      CacheStep(At(ops, n - 1), ops[n - 1], version);
    }
  }

  lemma CacheStep(db: Database, op: Op, version: Version)
    requires version in db.cache
    ensures version in Step(db, op).0.cache <==> op != EvictOp(version)
    ensures op != EvictOp(version) ==> Step(db, op).0.cache[version] == db.cache[version]
  {
    hide Rendered;
    match op
    case RequestOp(key, media, retries, max, submission, now) =>
      RequestKeepsCache(db, key, media, retries, max, submission, now);
    case DeliverOp(jobId) => DeliverKeepsCache(db, jobId);
    case _ =>
  }
}
