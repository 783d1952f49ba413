/**
  The transcript services as they run: tables and cache are fields, and every operation writes them in
  place, in the order the source does. Each is proved to have exactly the effect that module `Transcripts`
  gives it, refusals included, and to keep what the database constrains.
*/
module TranscriptService {
  import opened Backoff
  import opened Options
  import opened Rendering
  import opened Transcripts

  class Pipeline {
    var transcripts: map<Key, Transcript>
    var events: map<JobId, WebhookEvent>
    var cache: map<Version, string>

    ghost function View(): Database
      reads this
    {
      Database(transcripts, events, cache)
    }

    ghost predicate Valid()
      reads this
    {
      Constrained(View())
    }

    constructor ()
      ensures Valid() && View() == Database(map[], map[], map[])
    {
      transcripts, events, cache := map[], map[], map[];
    }

    method RecordFailure(key: Key, message: string, attempts: nat)
      requires Valid() && key in transcripts
      modifies this`transcripts
      ensures Valid() && View() == WithRow(old(View()), key, FailedRow(old(transcripts[key]), message, attempts))
    {
      var failed := transcripts[key].(status := Failed, errorMessage := Truncate(message), retryCount := attempts);
      JobStaysUnique(View(), key, failed);
      RowKeepsConstraints(View(), key, failed);
      transcripts := transcripts[key := failed];
    }

    method RequestTranscription(key: Key, media: Media, retries: nat, maxRetries: nat,
                                submission: Submission, now: Time) returns (answer: Answer)
      requires Valid()
      modifies this`transcripts
      ensures Valid()
      ensures (View(), answer) == Request(old(View()), key, media, retries, maxRetries, submission, now)
    {
      if media.MediaGone? {
        return Gone;
      }
      if media.MediaNotReady? {
        return NotReady;
      }
      hide Constrained, JobTaken, RetryCountdown, Truncate;
      GetOrCreate(key, now);
      var transcript := transcripts[key];
      if HasJob(transcript) {
        return AlreadySubmitted;
      }
      if transcript.status in {Machine, InReview, Approved} {
        return AlreadyTranscribed;
      }
      match submission {
        case Raised(message) =>
          var attempts := retries + 1;
          if attempts > maxRetries {
            RecordFailure(key, message, attempts - 1);
            Overwritten(old(transcripts), key, transcript, FailedRow(transcript, message, retries));
            return DeadLettered;
          }
          Update(key, transcript.(retryCount := attempts));
          Overwritten(old(transcripts), key, transcript, transcript.(retryCount := attempts));
          return RetryIn(RetryCountdown(attempts));
        case Answered(jobId, refused) =>
          if refused {
            RecordFailure(key, "The provider refused the job.", retries);
            Overwritten(old(transcripts), key, transcript,
                        FailedRow(transcript, "The provider refused the job.", retries));
            return ProviderRefused;
          }
          if JobTaken(transcripts, key, jobId) {
            return IntegrityError;
          }
          SetJob(key, jobId);
          Overwritten(old(transcripts), key, transcript,
                      transcript.(jobId := Some(jobId), status := Pending, errorMessage := ""));
          return Submitted;
      }
    }

    method GetOrCreate(key: Key, now: Time)
      requires Valid()
      modifies this`transcripts
      ensures Valid() && key in transcripts
      ensures transcripts == old(transcripts)[key :=
                if key in old(transcripts) then old(transcripts[key]) else Fresh(now)]
    {
      if key !in transcripts {
        RowKeepsConstraints(View(), key, Fresh(now));
        transcripts := transcripts[key := Fresh(now)];
      }
    }

    /** An UPDATE of one row that leaves its job id alone. */
    method Update(key: Key, row: Transcript)
      requires Valid() && key in transcripts && row.jobId == transcripts[key].jobId
      requires RowConstrained(row) && row.status != Approved
      modifies this`transcripts
      ensures Valid() && transcripts == old(transcripts)[key := row]
    {
      JobStaysUnique(View(), key, row);
      RowKeepsConstraints(View(), key, row);
      transcripts := transcripts[key := row];
    }

    method SetJob(key: Key, jobId: JobId)
      requires Valid() && key in transcripts && !JobTaken(transcripts, key, jobId)
      modifies this`transcripts
      ensures Valid()
      ensures transcripts == old(transcripts)[key :=
                old(transcripts[key]).(jobId := Some(jobId), status := Pending, errorMessage := "")]
    {
      var row := transcripts[key].(jobId := Some(jobId), status := Pending, errorMessage := "");
      RowKeepsConstraints(View(), key, row);
      transcripts := transcripts[key := row];
    }

    method PostWebhook(result: JobResult) returns (answer: Answer)
      requires Valid()
      modifies this`events
      ensures Valid() && (View(), answer) == Receive(old(View()), result)
    {
      if result.jobId in events {
        return Duplicate;
      }
      events := events[result.jobId := WebhookEvent(result, false)];
      answer := Stored;
    }

    /** `bulk_create` after the delete, one row at a time. */
    method CreateSegments(segments: seq<Segment>) returns (rows: map<nat, Cue>)
      ensures rows == RowsOf(segments)
    {
      rows := map[];
      for i := 0 to |segments|
        invariant rows == RowsOf(segments[..i])
      {
        var s := segments[i];
        rows := rows[s.position := Cue(s.startMs, s.endMs, s.text, false)];
        assert segments[..i + 1][..i] == segments[..i];
      }
      assert segments[..|segments|] == segments;
    }

    method ApplyCallback(jobId: JobId) returns (answer: Answer)
      requires Valid()
      modifies this`transcripts, this`events
      ensures Valid() && (View(), answer) == Deliver(old(View()), jobId)
    {
      hide RowsOf, Acceptable, Truncate, Proportion;
      if jobId !in events {
        return Gone;
      }
      var record := events[jobId];
      if !exists k :: k in transcripts && transcripts[k].jobId == Some(jobId) {
        events := events[jobId := record.(processed := true)];
        return UnknownJob;
      }
      var key :| key in transcripts && transcripts[key].jobId == Some(jobId);
      FindByJobFinds(transcripts, jobId, key);
      var transcript := transcripts[key];
      if transcript.status == InReview || transcript.status == Approved {
        events := events[jobId := record.(processed := true)];
        return RefusedReviewed;
      }
      if record.result.status == JobFailed {
        RecordFailure(key, "The provider failed to transcribe this audio.", 0);
        answer := RecordedFailure;
      } else {
        if !Storable(record.result) {
          return IntegrityError;
        }
        var rows := CreateSegments(record.result.segments);
        RowsAreConstrained(record.result.segments);
        Update(key, transcript.(segments := rows, status := Machine, confidence := record.result.confidence,
                                errorMessage := ""));
        answer := Transcribed;
      }
      events := events[jobId := record.(processed := true)];
    }

    method EditSegment(key: Key, position: nat, permitted: bool, text: Option<string>,
                       startMs: Option<int>, endMs: Option<int>, now: Time) returns (answer: Answer)
      requires Valid()
      modifies this`transcripts
      ensures Valid()
      ensures (View(), answer) == Edit(old(View()), key, position, permitted, text, startMs, endMs, now)
    {
      if key !in transcripts || position !in transcripts[key].segments {
        return NotFound;
      }
      var transcript := transcripts[key];
      var segment := transcript.segments[position];
      if !permitted {
        return NotYours;
      }
      if transcript.status !in {Machine, InReview, Approved} {
        return NotEditable;
      }
      if text.Some? {
        segment := segment.(text := text.value);
      }
      if startMs.Some? {
        segment := segment.(startMs := startMs.value);
      }
      if endMs.Some? {
        segment := segment.(endMs := endMs.value);
      }
      if segment.endMs <= segment.startMs {
        return InvalidSpan;
      }
      segment := segment.(isEdited := true);
      if segment.startMs < 0 {
        return IntegrityError;
      }
      SaveEdit(key, position, segment, now);
      answer := Saved;
    }

    /** The three writes of an edit: the segment, the transcript's timestamp, and the withdrawn approval. */
    method SaveEdit(key: Key, position: nat, segment: Cue, now: Time)
      requires Valid() && key in transcripts && position in transcripts[key].segments
      requires 0 <= segment.startMs < segment.endMs
      modifies this`transcripts
      ensures Valid()
      ensures transcripts == old(transcripts)[key := EditedRow(old(transcripts[key]), position, segment, now)]
    {
      hide Constrained;
      ghost var before := View();
      ghost var was := transcripts[key];
      transcripts := transcripts[key := transcripts[key].(segments := transcripts[key].segments[position := segment])];
      transcripts := transcripts[key := transcripts[key].(updatedAt := now)];
      if transcripts[key].status == Approved {
        transcripts := transcripts[key :=
          transcripts[key].(status := InReview, reviewedBy := None, approvedAt := None)];
      }
      ghost var row := EditedRow(was, position, segment, now);
      assert transcripts == before.transcripts[key := row];
      EditKeepsConstraints(before, key, position, segment, now);
    }

    method StartReview(key: Key, permitted: bool, now: Time) returns (answer: Answer)
      requires Valid()
      modifies this`transcripts
      ensures Valid() && (View(), answer) == Move(old(View()), key, InReview, permitted, now)
    {
      answer := Transition(key, InReview, permitted, now);
    }

    method Reopen(key: Key, permitted: bool, now: Time) returns (answer: Answer)
      requires Valid()
      modifies this`transcripts
      ensures Valid() && (View(), answer) == Move(old(View()), key, Machine, permitted, now)
    {
      answer := Transition(key, Machine, permitted, now);
    }

    method Transition(key: Key, target: Status, permitted: bool, now: Time) returns (answer: Answer)
      requires Valid() && target != Approved
      modifies this`transcripts
      ensures Valid() && (View(), answer) == Move(old(View()), key, target, permitted, now)
    {
      if key !in transcripts {
        return NotFound;
      }
      if !permitted {
        return NotYours;
      }
      if (transcripts[key].status, target) !in ALLOWED_TRANSITIONS {
        return InvalidTransition;
      }
      Update(key, transcripts[key].(status := target, updatedAt := now));
      answer := Saved;
    }

    method ApproveTranscript(key: Key, permitted: bool, reviewer: nat, now: Time) returns (answer: Answer)
      requires Valid()
      modifies this`transcripts
      ensures Valid() && (View(), answer) == Approve(old(View()), key, permitted, reviewer, now)
    {
      if key !in transcripts {
        return NotFound;
      }
      if !permitted {
        return NotYours;
      }
      if (transcripts[key].status, Approved) !in ALLOWED_TRANSITIONS {
        return InvalidTransition;
      }
      if transcripts[key].segments == map[] {
        return NothingToApprove;
      }
      var transcript := transcripts[key].(status := Approved);
      transcript := transcript.(reviewedBy := Some(reviewer));
      transcript := transcript.(approvedAt := Some(now), updatedAt := now);
      JobStaysUnique(View(), key, transcript);
      RowKeepsConstraints(View(), key, transcript);
      transcripts := transcripts[key := transcript];
      answer := Saved;
    }

    method GetVtt(key: Key, access: Access, ifNoneMatch: Option<Version>) returns (answer: Answer)
      requires Valid()
      modifies this`cache
      ensures Valid() && (View(), answer) == Get(old(View()), key, access, ifNoneMatch)
    {
      if access.Hidden? {
        return NotFound;
      }
      if access.Refused? {
        return EntitlementDenied;
      }
      if key !in transcripts || transcripts[key].status != Approved {
        return NotFound;
      }
      var transcript := transcripts[key];
      var version := Version(key, transcript.updatedAt);
      if ifNoneMatch == Some(version) {
        return NotModified(version);
      }
      if version !in cache {
        var body := RenderVtt(InOrder(transcript.segments));
        if body.None? {
          return ServerError;
        }
        cache := cache[version := body.value];
      }
      answer := Vtt200(version, cache[version]);
    }

    method EvictEntry(version: Version) returns (answer: Answer)
      requires Valid()
      modifies this`cache
      ensures Valid() && (View(), answer) == Evict(old(View()), version)
    {
      cache := cache - {version};
      answer := Saved;
    }
  }
}
