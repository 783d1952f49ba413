/**
  The rows behind subtitles and what each service call, task delivery, webhook and request does to them.
  Every function here takes the database before one atomic step to the database after it, with the answer
  the caller gets. A transcript is named by its asset and language, a cue by its position.
*/
module Transcripts {
  import opened Backoff
  import opened Options
  import opened Ordering
  import opened Rendering

  type Time = int
  type JobId = string

  datatype Key = Key(asset: nat, language: nat)
  datatype Status = Pending | Machine | InReview | Approved | Failed
  datatype Cue = Cue(startMs: int, endMs: int, text: string, isEdited: bool)

  /** The provider's confidence is in thousandths, as the column rounds it. */
  datatype Transcript = Transcript(
    status: Status,
    jobId: Option<JobId>,
    segments: map<nat, Cue>,
    confidence: Option<int>,
    reviewedBy: Option<nat>,
    approvedAt: Option<Time>,
    updatedAt: Time,
    errorMessage: string,
    retryCount: nat
  )

  datatype JobStatus = Processing | Completed | JobFailed
  datatype JobResult = JobResult(
    jobId: JobId, status: JobStatus, segments: seq<Segment>, confidence: Option<int>)
  datatype WebhookEvent = WebhookEvent(result: JobResult, processed: bool)

  /** The cache key and the ETag: the transcript and its `updated_at`. */
  datatype Version = Version(key: Key, stamp: Time)

  datatype Database = Database(
    transcripts: map<Key, Transcript>,
    events: map<JobId, WebhookEvent>,
    cache: map<Version, string>
  )

  /** The media asset when the task runs. */
  datatype Media = MediaGone | MediaNotReady | MediaReady

  /** What a learner's request finds before any transcript is looked for. */
  datatype Access = Hidden | Refused | Granted

  /** What the provider does when a job is submitted. */
  datatype Submission = Raised(message: string) | Answered(jobId: JobId, refused: bool)

  datatype Answer =
    | NotReady | AlreadySubmitted | AlreadyTranscribed | DeadLettered | ProviderRefused | Submitted
    | RetryIn(seconds: nat)
    | Stored | Duplicate
    | Gone | UnknownJob | RefusedReviewed | RecordedFailure | Transcribed
    | NotYours | NotEditable | InvalidSpan | InvalidTransition | NothingToApprove | Saved
    | NotFound | EntitlementDenied | NotModified(etag: Version) | Vtt200(etag: Version, body: string)
    | IntegrityError | ServerError

  // ----- submission -----

  function Fresh(now: Time): Transcript {
    Transcript(Pending, None, map[], None, None, None, now, "", 0)
  }

  function FailedRow(t: Transcript, message: string, attempts: nat): Transcript {
    t.(status := Failed, errorMessage := Truncate(message), retryCount := attempts)
  }

  predicate HasJob(t: Transcript) {
    t.jobId.Some? && t.jobId.value != ""
  }

  predicate JobTaken(transcripts: map<Key, Transcript>, key: Key, jobId: JobId) {
    exists k :: k in transcripts && k != key && transcripts[k].jobId == Some(jobId)
  }

  /** `request_transcription`: one delivery of the task, its `retries`-th retry. */
  function Request(db: Database, key: Key, media: Media, retries: nat, maxRetries: nat,
                   submission: Submission, now: Time): (Database, Answer)
  {
    if media.MediaGone? then (db, Gone)
    else if media.MediaNotReady? then (db, NotReady)
    else
      var t := if key in db.transcripts then db.transcripts[key] else Fresh(now);
      if HasJob(t) then (WithRow(db, key, t), AlreadySubmitted)
      else if t.status in {Machine, InReview, Approved} then (WithRow(db, key, t), AlreadyTranscribed)
      else match submission
        case Raised(message) =>
          if retries + 1 > maxRetries then (WithRow(db, key, FailedRow(t, message, retries)), DeadLettered)
          else (WithRow(db, key, t.(retryCount := retries + 1)), RetryIn(RetryCountdown(retries + 1)))
        case Answered(jobId, refused) =>
          if refused then
            (WithRow(db, key, FailedRow(t, "The provider refused the job.", retries)), ProviderRefused)
          else if JobTaken(db.transcripts[key := t], key, jobId) then (WithRow(db, key, t), IntegrityError)
          else (WithRow(db, key, t.(jobId := Some(jobId), status := Pending, errorMessage := "")), Submitted)
  }

  function WithRow(db: Database, key: Key, t: Transcript): Database {
    db.(transcripts := db.transcripts[key := t])
  }

  // ----- the callback -----

  /** `TranscriptionWebhookView.post` after the signature: one row per job id, ever. */
  function Receive(db: Database, result: JobResult): (Database, Answer) {
    if result.jobId in db.events then (db, Duplicate)
    else (db.(events := db.events[result.jobId := WebhookEvent(result, false)]), Stored)
  }

  function Processed(db: Database, jobId: JobId): Database
    requires jobId in db.events
  {
    db.(events := db.events[jobId := db.events[jobId].(processed := true)])
  }

  /** The transcript a callback is for; the unique constraint on the job id leaves at most one. */
  ghost function FindByJob(transcripts: map<Key, Transcript>, jobId: JobId): Option<Key> {
    if k :| k in transcripts && transcripts[k].jobId == Some(jobId) then Some(k) else None
  }

  /** The segment table's constraints: one row per position, and a real span inside the media. */
  predicate Acceptable(segments: seq<Segment>) {
    && (forall i, j :: 0 <= i < j < |segments| ==> segments[i].position != segments[j].position)
    && (forall i :: 0 <= i < |segments| ==> 0 <= segments[i].startMs < segments[i].endMs)
  }

  function RowsOf(segments: seq<Segment>): map<nat, Cue> {
    if segments == [] then map[] else
      var n := |segments| - 1;
      var s := segments[n];
      RowsOf(segments[..n])[s.position := Cue(s.startMs, s.endMs, s.text, false)]
  }

  predicate Proportion(confidence: Option<int>) {
    confidence.Some? ==> 0 <= confidence.value <= 1000
  }

  /** What the tables take from a result. */
  predicate Storable(result: JobResult) {
    Acceptable(result.segments) && Proportion(result.confidence)
  }

  function TranscribedRow(t: Transcript, result: JobResult): Transcript {
    t.(segments := RowsOf(result.segments), status := Machine, confidence := result.confidence, errorMessage := "")
  }

  /** `apply_transcription_callback`: one delivery of the task for a stored event. */
  ghost function Deliver(db: Database, jobId: JobId): (Database, Answer) {
    if jobId !in db.events then (db, Gone) else
      var result := db.events[jobId].result;
      match FindByJob(db.transcripts, jobId)
      case None => (Processed(db, jobId), UnknownJob)
      case Some(key) =>
        var t := db.transcripts[key];
        if t.status == InReview || t.status == Approved then (Processed(db, jobId), RefusedReviewed)
        else if result.status == JobFailed then
          (WithRow(Processed(db, jobId), key,
                   FailedRow(t, "The provider failed to transcribe this audio.", 0)), RecordedFailure)
        else if !Storable(result) then (db, IntegrityError)
        else (WithRow(Processed(db, jobId), key, TranscribedRow(t, result)), Transcribed)
  }

  // ----- review -----

  function GetOr<T>(given: Option<T>, default: T): T {
    match given
    case None => default
    case Some(value) => value
  }

  function EditedRow(t: Transcript, position: nat, cue: Cue, now: Time): Transcript {
    var edited := t.(segments := t.segments[position := cue], updatedAt := now);
    if t.status == Approved then edited.(status := InReview, reviewedBy := None, approvedAt := None) else edited
  }

  /** `edit_segment`: an omitted field keeps its value; the merged span is what is checked. */
  function Edit(db: Database, key: Key, position: nat, permitted: bool, text: Option<string>,
                startMs: Option<int>, endMs: Option<int>, now: Time): (Database, Answer)
  {
    if key !in db.transcripts || position !in db.transcripts[key].segments then (db, NotFound) else
      var t := db.transcripts[key];
      var was := t.segments[position];
      var cue := Cue(GetOr(startMs, was.startMs), GetOr(endMs, was.endMs), GetOr(text, was.text), true);
      if !permitted then (db, NotYours)
      else if t.status !in {Machine, InReview, Approved} then (db, NotEditable)
      else if cue.endMs <= cue.startMs then (db, InvalidSpan)
      else if cue.startMs < 0 then (db, IntegrityError)
      else (WithRow(db, key, EditedRow(t, position, cue, now)), Saved)
  }

  const ALLOWED_TRANSITIONS: set<(Status, Status)> := {
    (Machine, InReview), (InReview, Approved), (InReview, Machine), (Approved, InReview)
  }

  /** `start_review` and `reopen`: the move to `target`, when the table has it. The signature stays. */
  function Move(db: Database, key: Key, target: Status, permitted: bool, now: Time): (Database, Answer) {
    if key !in db.transcripts then (db, NotFound) else
      var t := db.transcripts[key];
      if !permitted then (db, NotYours)
      else if (t.status, target) !in ALLOWED_TRANSITIONS then (db, InvalidTransition)
      else (WithRow(db, key, t.(status := target, updatedAt := now)), Saved)
  }

  function ApprovedRow(t: Transcript, reviewer: nat, now: Time): Transcript {
    t.(status := Approved, reviewedBy := Some(reviewer), approvedAt := Some(now), updatedAt := now)
  }

  /** `approve`. */
  function Approve(db: Database, key: Key, permitted: bool, reviewer: nat, now: Time): (Database, Answer) {
    if key !in db.transcripts then (db, NotFound) else
      var t := db.transcripts[key];
      if !permitted then (db, NotYours)
      else if (t.status, Approved) !in ALLOWED_TRANSITIONS then (db, InvalidTransition)
      else if t.segments == map[] then (db, NothingToApprove)
      else (WithRow(db, key, ApprovedRow(t, reviewer, now)), Saved)
  }

  // ----- serving -----

  function RowAsSegment(segments: map<nat, Cue>, p: nat): Segment
    requires p in segments
  {
    Segment(p, segments[p].startMs, segments[p].endMs, segments[p].text)
  }

  /** The cues by position, as the prefetch lists them. */
  function InOrder(segments: map<nat, Cue>): (ordered: seq<Segment>)
    ensures |ordered| == |segments|
  {
    var positions := Ascend(segments.Keys);
    seq(|positions|, i requires 0 <= i < |positions| =>
      assert positions[i] in positions; RowAsSegment(segments, positions[i]))
  }

  /** The uncached file for a transcript's rows. */
  function Rendered(t: Transcript): Option<string> {
    Vtt(InOrder(t.segments))
  }

  /** `LessonTranscriptView.get`. */
  function Get(db: Database, key: Key, access: Access, ifNoneMatch: Option<Version>): (Database, Answer) {
    if access.Hidden? then (db, NotFound)
    else if access.Refused? then (db, EntitlementDenied)
    else if key !in db.transcripts || db.transcripts[key].status != Approved then (db, NotFound)
    else
      var t := db.transcripts[key];
      var version := Version(key, t.updatedAt);
      if ifNoneMatch == Some(version) then (db, NotModified(version))
      else if version in db.cache then (db, Vtt200(version, db.cache[version]))
      else match Rendered(t)
        case None => (db, ServerError)
        case Some(body) => (db.(cache := db.cache[version := body]), Vtt200(version, body))
  }

  /** A cache entry times out or is pushed out. */
  function Evict(db: Database, version: Version): (Database, Answer) {
    (db.(cache := db.cache - {version}), Saved)
  }

  // ----- what the database itself enforces -----

  predicate RowConstrained(t: Transcript) {
    && (forall p :: p in t.segments ==> 0 <= t.segments[p].startMs < t.segments[p].endMs)
    && Proportion(t.confidence)
  }

  predicate SameJob(t: Transcript, u: Transcript) {
    t.jobId.Some? && t.jobId == u.jobId
  }

  ghost predicate JobsUnique(transcripts: map<Key, Transcript>) {
    forall k, l :: k in transcripts && l in transcripts && SameJob(transcripts[k], transcripts[l]) ==> k == l
  }

  ghost predicate Constrained(db: Database) {
    && JobsUnique(db.transcripts)
    && (forall k :: k in db.transcripts ==> RowConstrained(db.transcripts[k]))
    && (forall k :: k in db.transcripts && db.transcripts[k].status == Approved ==>
          db.transcripts[k].reviewedBy.Some? && db.transcripts[k].approvedAt.Some?)
  }

  /** Writing one row keeps the constraints when the row meets its own and its job id is nobody else's. */
  lemma RowKeepsConstraints(db: Database, key: Key, t: Transcript)
    requires Constrained(db)
    requires RowConstrained(t) && (t.status == Approved ==> t.reviewedBy.Some? && t.approvedAt.Some?)
    requires forall k :: k in db.transcripts && k != key ==> !SameJob(t, db.transcripts[k])
    ensures Constrained(WithRow(db, key, t))
  {
    hide RowConstrained;
    var after := WithRow(db, key, t);
    forall k, l | k in after.transcripts && l in after.transcripts
                  && SameJob(after.transcripts[k], after.transcripts[l])
      ensures k == l
    {
    }
  }

  lemma JobStaysUnique(db: Database, key: Key, t: Transcript)
    requires Constrained(db) && key in db.transcripts
    requires t.jobId == db.transcripts[key].jobId
    ensures forall k :: k in db.transcripts && k != key ==> !SameJob(t, db.transcripts[k])
  {
    hide RowConstrained;
    forall k | k in db.transcripts && k != key
      ensures !SameJob(t, db.transcripts[k])
    {
      assert !SameJob(db.transcripts[key], db.transcripts[k]);
    }
  }

  lemma Overwritten<K, V>(m: map<K, V>, k: K, v: V, w: V)
    ensures m[k := v][k := w] == m[k := w]
  {
  }

  lemma EditKeepsConstraints(db: Database, key: Key, position: nat, cue: Cue, now: Time)
    requires Constrained(db) && key in db.transcripts && position in db.transcripts[key].segments
    requires 0 <= cue.startMs < cue.endMs
    ensures Constrained(WithRow(db, key, EditedRow(db.transcripts[key], position, cue, now)))
  {
    var row := EditedRow(db.transcripts[key], position, cue, now);
    assert RowConstrained(db.transcripts[key]);
    JobStaysUnique(db, key, row);
    RowKeepsConstraints(db, key, row);
  }

  lemma FindByJobFinds(transcripts: map<Key, Transcript>, jobId: JobId, key: Key)
    requires JobsUnique(transcripts)
    requires key in transcripts && transcripts[key].jobId == Some(jobId)
    ensures FindByJob(transcripts, jobId) == Some(key)
  {
  }

  lemma {:induction false} RowsAreConstrained(segments: seq<Segment>)
    requires Acceptable(segments)
    ensures forall p :: p in RowsOf(segments) ==> 0 <= RowsOf(segments)[p].startMs < RowsOf(segments)[p].endMs
  {
    if segments != [] {
      RowsAreConstrained(segments[..|segments| - 1]);
    }
  }

  lemma {:induction false} NotAmongRows(segments: seq<Segment>, p: nat)
    requires forall i :: 0 <= i < |segments| ==> segments[i].position != p
    ensures p !in RowsOf(segments)
  {
    if segments != [] {
      NotAmongRows(segments[..|segments| - 1], p);
    }
  }

  /** No segment of an acceptable result is lost or doubled when it is stored. */
  lemma {:induction false} RowsHoldEverySegment(segments: seq<Segment>)
    requires Acceptable(segments)
    ensures |RowsOf(segments)| == |segments|
    ensures forall i :: 0 <= i < |segments| ==>
      segments[i].position in RowsOf(segments) && RowAsSegment(RowsOf(segments), segments[i].position) == segments[i]
  {
    if segments != [] {
      var n := |segments| - 1;
      var init, last := segments[..n], segments[n];
      RowsHoldEverySegment(init);
      NotAmongRows(init, last.position);
      forall i | 0 <= i < n
        ensures segments[i].position in RowsOf(segments)
        ensures RowAsSegment(RowsOf(segments), segments[i].position) == segments[i]
      {
        assert init[i] == segments[i];
      }
    }
  }
}
