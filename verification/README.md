# A verified model of the language learning platform's services

The platform is a Django backend whose services layer is a set of state machines over database rows. This
project states those machines in Dafny and proves what they keep. One service call, task delivery, webhook or
request is one atomic step, except where a module says otherwise. Tables are maps and sequences of rows; a
service that writes rows is a method of a class holding the tables, proved to have exactly the effect of a
specification function, and the theorems are about runs of those functions: any steps, in any order and number.

| modules | what they model |
|---|---|
| `Decimal`, `Rendering`, `WebVtt`, `RoundTrip`, `PrintedFiles` | the WebVTT printer, a cue reader after section 6.1 of the W3C WebVTT specification, the round trip between them, and what the file as a string tells |
| `Transcripts`, `TranscriptService`, `TranscriptRuns`, `TranscriptReview`, `TranscriptCache`, `TranscriptRaces`, `TranscriptSteps`, `LessonSubtitles` | submission, redelivered callbacks, human review, the cached, versioned file learners are served, and whether it belongs to the media they play |
| `Entitlements`, `Reconciliation`, `Subscriptions` | the access resolver, the drift report, and the subscription transitions with their event log |
| `Curriculum`, `Publication` | sections, lessons and the all-or-nothing reorder; the review of a course |
| `Heartbeats`, `Learning`, `NextLesson`, `ProgressCounts` | watched time, completion of lessons and courses, what to play next, and the counts on "my courses" |
| `MediaAssets`, `Backoff` | upload, the hand-off to the video provider, its webhooks and the retry button |
| `Admission` | beta invitations and gated registration |
| `Options`, `Ordering` | an option type, and sets of rows arranged by a key |

Every statement is for all inputs. Where the code reads the clock, asks a provider or looks at storage, the
result is a parameter and the statement holds whatever it is.

## What the proofs found

Where the code and its own words part, the model follows the code.

- A file read back gives the cues exactly as stored if and only if no text has a CR, a NUL, a line feed at
  either end or a blank line (`RoundTrip.RoundTripExactly`). A text with a blank line inside is cut there
  (`RoundTrip.BlankLineCutsTheCue`); nothing in the services refuses one.
- The file cache is right as long as no two approvals of one transcript carry the same timestamp
  (`TranscriptCache.ServedIsCurrent`). The repository's README.md:151-156 says such ties happen. Without the
  assumption an answer is current exactly when no text, time or position has changed since the step that
  printed it (`TranscriptCache.StaleExactlyWhenWordsChanged`), and from any approved transcript a correction
  signed within one tick of the clock makes it stale (`TranscriptCache.TiedClockServesStaleWords`).
- When a request's reads are not one snapshot, the body it answers is what the row prints at that moment exactly
  when no text, time or position has changed since the cues were read (`TranscriptRaces.AnswerIsRightExactly`), so
  a learner can be answered with words nobody signed (`TranscriptRaces.RacingReaderSeesUnsignedWords`). As long as
  no two approvals of a transcript tie, the answer is right while the version it read is still current
  (`TranscriptRaces.AnswerIsRightWhileCurrent`), the cache entry under a current version is always right, and so is
  every 304.
- A transcript that is not approved can be signed. A signature stands exactly until an edit is accepted while the
  transcript is approved (`TranscriptReview.SignedExactly`), so opening a review on an approved one keeps it, and
  edits made during that review keep it too, over words its signer never saw.
- A human's edit survives the next delivery of the provider's callback exactly when a review was open, or was
  opened in time, and left open, or when the tables refuse the provider's result
  (`TranscriptReview.EditOutlivesDeliveryExactly`).
- Approved subtitles outlive the media they were made for. They belong to the media now playing exactly when no
  upload has been granted since their job was submitted (`LessonSubtitles.SubtitlesBelongExactly`), and no later
  submission orders new ones (`LessonSubtitles.NewMediaGetsNoWords`).
- A retry of a failed asset hands its master over exactly when the row has no provider id
  (`MediaAssets.RetryWorksExactly`, `MediaAssets.RetryCanSucceedExactly`), although `retry_processing` promises
  that it costs a click; after a hand-off that failed it changes nothing more. The same guard lets an asset with
  an empty id be handed over twice (`MediaAssets.EmptyIdIsHandedOverAgain`). A replacement upload keeps the old
  duration although the comment says it starts clean (`MediaAssets.ReplacementStartsCleanExactly`).
- A hand-off need not be of a verified file: an upload rejected for its size or type, whose object is deleted, is
  handed over after one retry (`MediaAssets.RejectedUploadIsHandedOver`), and only after one
  (`MediaAssets.HandoffWasDecided`).
- Two overlapping requests can leave a course finished and never recorded as completed, exactly when the lessons
  they finish were the last two and the bookmark was on one of them, so that neither waits for the other
  (`Learning.OverlappingFinishersMissTheCourse`); with atomic steps that cannot happen.
- A row exactly at its boundary is refused access and not yet reported as drifted
  (`Reconciliation.RefusedButUnreported`).
- The reason shown to a caller who is let in follows the order of the rows, unless something else decides or
  all the allowing rows agree (`Entitlements.AllowedReasonFollowsOrder`). Whether access is allowed never does.
- Archiving writes no review event, so a trail that ends in an approval does not tell a live course from an
  archived one, and a live course goes back to its author only through the archive
  (`Publication.ReturnLeavesOnlyTheArchive`).

## Model

| member | source | states |
|---|---|---|
| Rendering.EscapeCueText | backend/apps/transcripts/rendering.py:33-44 | The loop over the replacement table yields a text that unescapes to the original and holds no `<`, `>` or cue separator. |
| Rendering.ThreePassesAreOne | backend/apps/transcripts/rendering.py:20-44 | Three global replacements in the table's order equal one pass that escapes each character by itself, for every text. |
| Rendering.UnescapeInvertsEscape | backend/apps/transcripts/rendering.py:20-44 | Unescaping gives back every text, including one that already contains character references. |
| Rendering.EscapedTextIsInert | backend/apps/transcripts/rendering.py:26-44 | No markup character and no `-->` survives escaping. |
| Rendering.RenderVtt | backend/apps/transcripts/rendering.py:64-86 | The appending loop produces the header and then the four lines of every cue in order, and fails exactly when some timestamp is negative. |
| RoundTrip.TimestampRoundTrip | backend/apps/transcripts/rendering.py:47-61 | The WebVTT timestamp collector recovers the milliseconds from every printed timestamp, hours unbounded, and stops where it ends. |
| RoundTrip.TimingsRoundTrip | backend/apps/transcripts/rendering.py:75-79 | A printed timing line is read back to its start and end. |
| RoundTrip.ParsePrinted | backend/apps/transcripts/rendering.py:64-86 | A WebVTT reader finds in any printed file exactly one cue per segment, in order, whatever the texts contain. |
| RoundTrip.ReadPrinted | backend/apps/transcripts/rendering.py:64-86 | Positions and times always come back; each text comes back as what a player shows of it. |
| RoundTrip.ShownAsWritten | backend/apps/transcripts/rendering.py:33-44 | A text is shown as written if and only if it has no CR, no NUL, no line feed at an end and no blank line. |
| RoundTrip.RoundTripExactly | backend/apps/transcripts/rendering.py:64-86 | Reading the printed file gives back the very segments if and only if every text is of that kind. |
| RoundTrip.BlankLineCutsTheCue | backend/apps/transcripts/rendering.py:64-86 | A concrete segment with a blank line in its text does not come back. |
| PrintedFiles.PrintsTellSegments | backend/apps/transcripts/rendering.py:64-86 | As a string the file loses nothing: two lists of segments print alike if and only if they are the same list, whatever their texts contain. |
| TranscriptService.Pipeline.RequestTranscription | backend/apps/transcripts/tasks.py:64-146 | Every branch of a submission delivery, from a deleted or unready asset to the recorded job, with its answer and the one row it may write; the database constraints stay. |
| TranscriptService.Pipeline.RecordFailure | backend/apps/transcripts/tasks.py:46-60 | The dead-letter write: status, truncated message and attempts of that row only. |
| TranscriptService.Pipeline.PostWebhook | backend/apps/transcripts/webhooks.py:80-97 | The first event of a job id is stored; every later one changes nothing. |
| TranscriptService.Pipeline.CreateSegments | backend/apps/transcripts/tasks.py:202-211 | Row-by-row insertion stores the result's segments by position. |
| TranscriptService.Pipeline.ApplyCallback | backend/apps/transcripts/tasks.py:150-220 | Every branch of a callback delivery: unknown job, reviewed work refused, failure recorded, a result the tables refuse, or segments and confidence replaced, with no new timestamp. |
| TranscriptService.Pipeline.EditSegment | backend/apps/transcripts/services.py:77-129 | An edit checks permission, status and the merged span in that order, and either changes nothing or makes the one accepted change. |
| TranscriptService.Pipeline.SaveEdit | backend/apps/transcripts/services.py:115-151 | The cue, the transcript's timestamp and, from APPROVED, the withdrawn status and signature, written one after the other, amount to one edited row. |
| TranscriptService.Pipeline.StartReview | backend/apps/transcripts/services.py:188-197 | The move to IN_REVIEW where the table has it; the signature columns are not written. |
| TranscriptService.Pipeline.Reopen | backend/apps/transcripts/services.py:235-250 | The move back to MACHINE, only from IN_REVIEW. |
| TranscriptService.Pipeline.ApproveTranscript | backend/apps/transcripts/services.py:201-231 | Approval only from IN_REVIEW, only with segments, with the signature and timestamp written with the status. |
| TranscriptService.Pipeline.GetVtt | backend/apps/transcripts/views.py:197-230 | 404 for a lesson out of sight, the refusal of the resolver, 404 unless approved, 304 on the current version, else the cached or freshly printed body under that version. |
| TranscriptService.Pipeline.EvictEntry | backend/apps/transcripts/views.py:219-223 | A cache entry that times out takes nothing else with it. |
| Transcripts.RowsHoldEverySegment | backend/apps/transcripts/tasks.py:198-211 | No segment of an acceptable result is lost, doubled or changed when it is stored. |
| TranscriptRuns.EveryRunIsSound | backend/apps/transcripts/models.py:121-144 | In every run the constraints hold, a transcript with words has a stored non-failed result for its job, one failed by its job has a failed one, and APPROVED means signed and non-empty. |
| TranscriptRuns.OneJobOneOutcome | backend/apps/transcripts/tasks.py:97-220 | Between any two moments of a run a job id never changes, words once given are never lost to PENDING or FAILED, and a job that failed never gives words. |
| TranscriptRuns.OneSubmissionPerTranscript | backend/apps/transcripts/tasks.py:97-139 | Two accepted submissions of one transcript are the same step, under any redelivery or retry, unless the first job came back without an id. |
| TranscriptRuns.SubmittedAgainExactly | backend/apps/transcripts/tasks.py:97-139 | After a submission the next delivery submits again if and only if the recorded job id is empty. |
| TranscriptRuns.CallbackIsIdempotent | backend/apps/transcripts/tasks.py:198-211 | Delivering a callback twice leaves the database as delivering it once. |
| TranscriptReview.RedeliveryReplacesCuesExactly | backend/apps/transcripts/tasks.py:172-216 | A delivery leaves a transcript's cues alone if and only if the event is unknown, the work is reviewed, the result failed or is refused by the tables, or the cues are the provider's already; otherwise it puts the provider's back. |
| TranscriptReview.EditOutlivesDeliveryExactly | backend/apps/transcripts/services.py:132-151 | Over any run, a cue edited by a human is still edited after the next delivery of its callback if and only if a review was open or opened, and left open, until then, or the tables refuse the result. |
| TranscriptRuns.LastApproval | backend/apps/transcripts/services.py:201-231 | A transcript approved at some moment has a last approving step, and its row is unchanged since. |
| TranscriptRuns.ApprovedMeansSigned | backend/apps/transcripts/services.py:132-151 | In every run an approved transcript carries the reviewer and time of its last approval and exactly the non-empty segments that reviewer had, despite edits and redeliveries. |
| TranscriptReview.EditWithdrawsApproval | backend/apps/transcripts/services.py:77-151 | An accepted edit changes one cue only, to the fields given, marks it, leaves the transcript unserved, and withdraws the signature if it was approved. |
| TranscriptReview.StartReviewKeepsTheSignature | backend/apps/transcripts/services.py:177-197 | Opening a review of an approved transcript stops it being served and leaves the old signature. |
| TranscriptReview.SignedExactly | backend/apps/transcripts/services.py:132-231 | In every run a row is signed if and only if some approval was followed by no accepted edit of approved words, and approved if and only if besides no review was opened again: the only way to be signed and not approved. |
| TranscriptCache.CacheProvenance | backend/apps/transcripts/views.py:215-223 | Without any clock assumption, every cached body was printed, and was right, at the step that stored it. |
| TranscriptCache.ServedIsCurrent | backend/apps/transcripts/views.py:215-230 | If no two approvals of a transcript tie, every 200 body in every run is the uncached print of the rows approved at that moment. |
| TranscriptCache.NotModifiedIsCurrent | backend/apps/transcripts/views.py:215-217 | Under the same assumption a 304 goes only to a client whose body under that ETag is still the current print. |
| TranscriptCache.LearnersReadWhatWasSigned | backend/apps/transcripts/views.py:207-230 | A served file, read back, gives the cues the reviewer approved, in position order. |
| TranscriptCache.PrintingNeverFails | backend/apps/transcripts/models.py:199-210 | Rows that meet the segment constraints always print. |
| TranscriptCache.StaleExactlyWhenWordsChanged | backend/apps/transcripts/views.py:215-230 | With no clock assumption, any 200 body of a run, at once or confirmed by a later 304, is current if and only if the positions, times and texts are what they were at the step that printed it. |
| TranscriptCache.PrintsTellWords | backend/apps/transcripts/rendering.py:64-86 | Two rows print the same file if and only if they hold the same texts at the same times and positions, edited mark or not. |
| TranscriptCache.TiedClockServesStaleWords | backend/apps/transcripts/services.py:117-122 | From any approved, uncached transcript, a request, an edit and an approval within a tick serve the words as they were, and that is the current file if and only if the edit changed no character. |
| TranscriptRaces.SequentialAgrees | backend/apps/transcripts/selectors.py:98-131 | However requests are split, transcripts and events are those of the history without them. |
| TranscriptRaces.CurrentEntryIsRight | backend/apps/transcripts/views.py:219-223 | If no two approvals of a transcript tie, in every interleaving of split requests with other steps the entry under a current version is the current print. |
| TranscriptRaces.AnswerIsRightWhileCurrent | backend/apps/transcripts/views.py:207-230 | If no two approvals of a transcript tie, a split request answers with the current print whenever the version it read is still current as it answers. |
| TranscriptRaces.AnswerIsRightExactly | backend/apps/transcripts/views.py:207-230 | In every interleaving and with any clock, the body of a 200 is what the row prints as the answer is given if and only if its positions, times and texts are those of the moment its cues were read. |
| TranscriptRaces.RacingNotModifiedIsCurrent | backend/apps/transcripts/views.py:215-217 | Under the same assumption, in every interleaving a 304 goes only to a client whose copy, however it was read, is the current print. |
| TranscriptRaces.RacingReaderSeesUnsignedWords | backend/apps/transcripts/views.py:207-223 | From any approved, uncached transcript, an edit between a request's two reads is served, unsigned, under the approved version. |
| LessonSubtitles.SubtitlesBelongExactly | backend/apps/transcripts/tasks.py:79-139 | Over every joint run of a lesson's media and its transcripts, the media an approved transcript's job was submitted for is the one now ready to play if and only if no upload was granted since, provided the provider names its assets apart. |
| LessonSubtitles.NewMediaGetsNoWords | backend/apps/transcripts/tasks.py:83-101 | Once a named job is recorded, every later submission for the transcript is answered without a new job, whatever happened to the media. |
| LessonSubtitles.EachMachineByItself | backend/apps/media_assets/tasks.py:193-204 | A joint run of both machines is a run of each, the submission task seeing the media as it then is. |
| TranscriptSteps.SubmittedExactly | backend/apps/transcripts/tasks.py:83-139 | A job is recorded if and only if the media is ready, nothing was ordered or given before, the provider took it, and no other transcript has its id. |
| TranscriptSteps.SubmissionFailsExactly | backend/apps/transcripts/tasks.py:104-127 | A refusal, or the last failure in the budget, is recorded as failed with the first 2000 characters of its reason; an earlier failure leaves only its count and asks for the next delay. |
| TranscriptSteps.NotSubmittedBecause | backend/apps/transcripts/tasks.py:79-111 | Which answer a delivery that submits nothing gets, from missing media to words already there, and that it leaves everything as it was. |
| TranscriptSteps.OutageDeadLetters | backend/apps/transcripts/tasks.py:40-121 | An outage takes exactly N+1 deliveries and 20*(2^N - 1) seconds, and dead-letters. |
| TranscriptSteps.FirstResultIsKept | backend/apps/transcripts/webhooks.py:80-95 | In every run a callback is stored for a job if and only if one was received, and it is the first. |
| TranscriptSteps.ProcessedExactly | backend/apps/transcripts/tasks.py:179-219 | In every run an event is marked processed if and only if some delivery of it ran to its end. |
| TranscriptSteps.DeliveredExactly | backend/apps/transcripts/tasks.py:172-220 | Which answer each status and result gets, and the whole row it leaves. |
| TranscriptSteps.StorableExactly | backend/apps/transcripts/models.py:143-210 | A result can be stored if and only if its rows lose no segment, each has a span inside the media, and the confidence, if any, is between 0 and 1. |
| TranscriptSteps.UnknownJobExactly | backend/apps/transcripts/tasks.py:172-181 | A callback is for an unknown job if and only if no transcript has that job, and then writes none. |
| TranscriptSteps.EditSavedExactly | backend/apps/transcripts/services.py:95-115 | An edit is accepted if and only if its author may review, the transcript has words and the merged cue has a span inside the media; otherwise nothing changes. |
| TranscriptSteps.MovesExactly | backend/apps/transcripts/services.py:168-250 | A review is opened from the machine's words or on approved ones and closed only while in review, by those who may, and only status and timestamp move. |
| TranscriptSteps.ApprovedExactly | backend/apps/transcripts/services.py:201-231 | An approval is accepted if and only if a permitted reviewer finds the transcript in review with words; the row then says who and when. |
| TranscriptSteps.ReviewRefusalsSayWhy | backend/apps/transcripts/services.py:95-250 | Which refusal a review step gets: what is missing, then permission, then the state, so that nobody without permission learns it. |
| TranscriptSteps.StampMovesExactly | backend/apps/transcripts/services.py:117-125 | A transcript's version moves to the moment of every accepted review step on it, and with nothing else. |
| TranscriptSteps.ServedExactly | backend/apps/transcripts/views.py:197-230 | A 200 or 304 is given if and only if access is granted and the transcript is approved, a 304 only on its version; a hidden lesson and a refused caller get their answer and the cache is untouched. |
| TranscriptSteps.WhoIsServedSubtitles | backend/apps/transcripts/views.py:198-217 | In every run a caller gets subtitles if and only if they can see the lesson, its subtitles are approved, and it is a preview, theirs, open to an administrator, or within the latest boundary of their rows and grants. |
| TranscriptSteps.CachedUntilEvicted | backend/apps/transcripts/views.py:219-223 | In every run an entry stays in the cache unchanged until its own eviction. |
| Entitlements.MostInformative | backend/apps/entitlements/resolver.py:123-133 | The refusal chosen is among the given ones and none ranks above it. |
| Entitlements.RefusalsAreRanked | backend/apps/entitlements/resolver.py:127-192 | The rank lookup never misses: every refusal a subscription can give has a rank. |
| Entitlements.WhatARefusedCallerIsTold | backend/apps/entitlements/resolver.py:117-240 | A refused caller is told to log in, or of the failed card if any row is PAST_DUE, else of the ended subscription if any is CANCELED or EXPIRED, else of the ended trial if there is a row, else that there is none. |
| Entitlements.WhyACallerIsLetIn | backend/apps/entitlements/resolver.py:108-275 | The reason given is the first that holds of preview, instructor, administrator, grant, and the first row, in the order listed, that is before its boundary, named by its status. |
| Entitlements.OrderOfRowsIsIrrelevant | backend/apps/entitlements/resolver.py:195-240 | Permuting rows or grants changes neither whether access is allowed nor anything a refused caller is told. |
| Entitlements.AllowedReasonFollowsOrder | backend/apps/entitlements/resolver.py:195-240 | The whole decision is the same in every order of rows and grants if and only if the caller is anonymous or an administrator, a grant covers the moment, or all rows that allow do so for the same reason. |
| Entitlements.AccessEndsAtTheHorizon | backend/apps/entitlements/resolver.py:158-240 | With fixed rows and grants begun, access holds at an instant if and only if it is before the latest boundary among them. |
| Entitlements.AccessOnlyEnds | backend/apps/entitlements/resolver.py:158-240 | So access at a later instant implies access now: time alone only takes it away. |
| Entitlements.WhoMaySeeALesson | backend/apps/entitlements/resolver.py:243-275 | A lesson opens if and only if it is a preview, or the caller is signed in and is its instructor, an administrator, or before that boundary. |
| Entitlements.Grants.GrantAccessOverride | backend/apps/entitlements/services.py:272-303 | A grant is refused for days out of range or no reason and then adds nothing; otherwise one window and its audit row are appended, so grants and audit rows match one for one. |
| Entitlements.GrantOpensItsWindow | backend/apps/entitlements/services.py:272-303 | To a caller no row lets in, asking for a grant gives access at exactly the moments of its days, if those are in range and a reason is given, and at none otherwise. |
| Reconciliation.ReconciliationFindings | backend/apps/entitlements/selectors.py:136-238 | The appending loop yields the non-empty categories in order with exact counts and the first five examples, then the duplicates. |
| Reconciliation.FlagIsTheVerdict | backend/apps/entitlements/selectors.py:160-197 | Every reported row gets from the resolver the verdict its category claims, and is in no other category. |
| Reconciliation.CategoriesSayWhetherTheyGrant | backend/apps/entitlements/selectors.py:163-197 | The table's flags are those verdicts and no category is listed twice. |
| Reconciliation.ReportedWhenOverdue | backend/apps/entitlements/selectors.py:163-197 | A row is reported if and only if it is strictly past the date its status is measured by. |
| Reconciliation.RefusedButUnreported | backend/apps/entitlements/selectors.py:163-197 | A stored row that is not EXPIRED is refused and unreported if and only if it is exactly at its boundary and not ACTIVE. |
| Reconciliation.EveryOverdueRowIsCountedOnce | backend/apps/entitlements/selectors.py:199-211 | The per-row counts add up to the number of overdue rows: none is missed or counted twice. |
| Reconciliation.FindingsDescribeTheirRows | backend/apps/entitlements/selectors.py:199-238 | A category is in the report if and only if something is behind it, with its exact count, its flag, and the five smallest ids as examples. |
| Reconciliation.DuplicatesReportedExactly | backend/apps/entitlements/selectors.py:213-238 | The duplicate finding has users if and only if two live rows share one. |
| Subscriptions.Service.StartSubscription | backend/apps/entitlements/services.py:130-164 | Refused for a user with a live row; otherwise one row from the snapshot and one first event. |
| Subscriptions.Service.ApplySnapshot | backend/apps/entitlements/services.py:90-126 | Off the table nothing changes; on it the snapshot is written, a trial end never cleared, and one event names the move; the event table never misses. |
| Subscriptions.Service.Renew | backend/apps/entitlements/services.py:168-177 | The snapshot applied as a renewal, whatever the provider reports. |
| Subscriptions.Service.FailPayment | backend/apps/entitlements/services.py:181-188 | The snapshot applied with the event its status calls for. |
| Subscriptions.Service.Cancel | backend/apps/entitlements/services.py:192-213 | The snapshot applied as a requested or an immediate end. |
| Subscriptions.Service.ExpireSubscription | backend/apps/entitlements/services.py:217-237 | The move to EXPIRED without the provider, logged. |
| Subscriptions.EveryRunIsSound | backend/apps/entitlements/services.py:52-126 | In every run each user has at most one live row, each log is a chain of allowed moves from nothing to the row's status, and a trial has its end. |
| Subscriptions.TrialOnlyAtTheStart | backend/apps/entitlements/services.py:52-66 | In every log TRIALING is reached by the first event or never. |
| Subscriptions.HistoryOnlyGrows | backend/apps/entitlements/services.py:90-237 | Over any stretch of a run a log only grows, a trial end is never cleared, an expired row is final, and a row once not live stays so. |
| Subscriptions.MovesExactly | backend/apps/entitlements/services.py:52-66 | The transition table in words: a live row may go anywhere but into a trial or from unpaid to unpaid, and a canceled one may expire. |
| Subscriptions.AcceptedExactly | backend/apps/entitlements/services.py:90-164 | A start is accepted if and only if the user has no live row and a trial has its end, any other step if and only if the table has the move; refusals change nothing. |
| Subscriptions.RefusalsSayWhy | backend/apps/entitlements/services.py:99-222 | Which refusal a step gets. |
| Subscriptions.AcceptedLeaves | backend/apps/entitlements/services.py:90-237 | An accepted step leaves what the provider said on its row, no other row touched, and one event naming the step's own reason and the move. |
| Subscriptions.LogIsTheHistory | backend/apps/entitlements/services.py:116-237 | In every run the reasons in a row's log are those of the accepted steps on it, in order. |
| Subscriptions.SnapshotSetsTheBoundary | backend/apps/entitlements/services.py:90-126 | After an accepted snapshot the resolver, over all the user's rows in any order, lets the user in if and only if the date it set is not past, or a grant or another row allows. |
| Subscriptions.DuplicatesAreNeverReported | backend/apps/entitlements/selectors.py:213-238 | In every run the report finds no user with two live rows. |
| Curriculum.Tables.CreateSectionRow | backend/apps/catalog/services.py:159-162 | A section is inserted for the owner where its place is free; otherwise nothing changes. |
| Curriculum.Tables.UpdateSectionRow | backend/apps/catalog/services.py:166-187 | Only a section of that owner's course moves, only to a free place, and never to another course. |
| Curriculum.Tables.CreateLessonRow | backend/apps/catalog/services.py:191-214 | A lesson is inserted only in a section of the named course, under unique slug and position. |
| Curriculum.Tables.UpdateLessonRow | backend/apps/catalog/services.py:218-252 | Omitted fields stay; a section of another course is refused. |
| Curriculum.Tables.ReorderSectionRows | backend/apps/catalog/services.py:415-469 | The position loop writes 1..n in the submitted order and no other row, or nothing at all when the list is not exactly the course's sections. |
| Curriculum.Tables.ReorderLessonRows | backend/apps/catalog/services.py:415-480 | The same over the lessons of one section. |
| Curriculum.StepKeepsSound | backend/apps/catalog/services.py:159-252 | Every catalogue write, reorders included, keeps the unique constraints and a lesson's course equal to its section's. |
| Curriculum.StepKeepsCourses | backend/apps/catalog/services.py:218-252 | No write removes a lesson or moves it to another course. |
| Curriculum.CreateSectionExactly | backend/apps/catalog/services.py:159-162 | Accepted if and only if the owner asks for a place no other section of the course holds; then exactly that section is added. |
| Curriculum.UpdateSectionExactly | backend/apps/catalog/services.py:166-187 | Accepted if and only if the owner moves a section of that course to a free place; nothing else changes. |
| Curriculum.CreateLessonExactly | backend/apps/catalog/services.py:191-214 | Accepted if and only if the owner names a section of the course and a position and slug no other lesson holds; then exactly that lesson is added. |
| Curriculum.UpdateLessonExactly | backend/apps/catalog/services.py:218-252 | Accepted if and only if the owner's lesson, each given field taken and each omitted one kept, clashes with no other and stays in a section of its course; then it is that row and no other changes. |
| Curriculum.ReorderAcceptedExactly | backend/apps/catalog/services.py:453-457 | A reorder is accepted if and only if it names every row of its scope, once, and nothing else; otherwise nothing changes. |
| Curriculum.RefusalsSayWhy | backend/apps/catalog/services.py:159-480 | Which refusal a write gets: a missing row, then the owner and the course, then a constraint; a reorder is refused as such. |
| Curriculum.CourseWideOrderIsTheConcatenation | backend/apps/catalog/selectors.py:57-76 | A list may be the course-wide query's answer if and only if it is the sections' lesson lists one after the other. |
| Curriculum.ReorderedSectionsAreInTheirOrder | backend/apps/catalog/services.py:467-469 | After an accepted reorder the positions are 1..n in the submitted order, no other row or column changed, the sections are listed exactly as submitted and the constraints hold. |
| Curriculum.ReorderedLessonsAreInTheirOrder | backend/apps/catalog/services.py:473-480 | The same for the section's lessons. |
| Curriculum.OtherSectionsKeepTheirOrder | backend/apps/catalog/services.py:473-480 | Reordering one section leaves the list of every other as it was. |
| Curriculum.SectionsStayWhenLessonsMove | backend/apps/catalog/services.py:473-480 | Reordering lessons leaves the list of sections as it was. |
| Curriculum.LessonLoopClashesExactly | backend/apps/catalog/services.py:426-449 | The loop over a section's lessons passes through a state the unique constraint forbids if and only if some id takes a place still held by an id later in the list; the finished reorder is sound. |
| Curriculum.SectionLoopClashesExactly | backend/apps/catalog/services.py:426-449 | The same over the sections of a course. |
| Publication.CourseRow.SubmitForReview | backend/apps/catalog/services.py:256-283 | The owner moves a draft to review with one trail event. |
| Publication.CourseRow.ApproveCourse | backend/apps/catalog/services.py:287-328 | An administrator publishes a course in review, with its date, a trail event and an audit row. |
| Publication.CourseRow.ReturnToDraft | backend/apps/catalog/services.py:331-364 | An administrator returns a course from review or the archive, clearing the date, with matching trail event and audit row. |
| Publication.CourseRow.Reject | backend/apps/catalog/services.py:368-376 | The same as a rejection. |
| Publication.CourseRow.RequestChanges | backend/apps/catalog/services.py:380-392 | The same as a change request. |
| Publication.CourseRow.ArchiveCourse | backend/apps/catalog/services.py:396-408 | A published course leaves the catalogue and loses its date, with no trail event. |
| Publication.EveryRunIsSound | backend/apps/catalog/services.py:60-408 | In every run the trail replays to the course's place, the date is set exactly while published, and the audit rows are the trail's decisions in order. |
| Publication.EveryTrailIsCycles | backend/apps/catalog/services.py:60-408 | In every run the trail is whole cycles of submit, optional approval and return, then at most one unfinished. |
| Publication.PublishedWasJustApproved | backend/apps/catalog/services.py:287-328 | A published course's trail ends in a submission and its approval. |
| Publication.ReturnLeavesOnlyTheArchive | backend/apps/catalog/services.py:60-68 | A published course cannot be returned, but can once archived; archiving leaves the trail as it was. |
| Publication.MovesHaveAuthors | backend/apps/catalog/services.py:80-408 | A step is accepted if and only if it is the owner submitting a draft or an administrator approving what is in review, returning it from there or the archive, or archiving what is live; refusals change nothing. |
| Publication.RefusalsSayWhy | backend/apps/catalog/services.py:80-92 | Which refusal a step gets: who is asking comes before the state of the course. |
| Publication.RoutesToAndFromPublished | backend/apps/catalog/services.py:287-328 | Only an administrator's approval publishes, dated by it, and only the archive takes a live course away. |
| Publication.PublishedByAnAdministrator | backend/apps/catalog/services.py:287-328 | In every run a live course has a last approval, by an administrator, at the moment of its date, and nothing has changed it since. |
| Publication.TrailIsTheHistory | backend/apps/catalog/services.py:256-408 | In every run the trail is the accepted steps other than archiving, in order, each under its own name. |
| Heartbeats.AfterInClosedForm | backend/apps/learning/services.py:131-176 | After any beats, watched time is the capped sum of clamped deltas, the furthest point is the largest, and the lesson is complete exactly when that sum reaches the threshold. |
| Heartbeats.PlayheadIsTheLastBeat | backend/apps/learning/services.py:156-161 | After any beats the playhead is where the last one was, and never before the start. |
| Heartbeats.ReorderedBeatsAgree | backend/apps/learning/services.py:131-176 | Permuting beats changes neither watched time, furthest point nor whether the lesson completed. |
| Heartbeats.DuplicateCostsAtMostTheCap | backend/apps/learning/services.py:149-162 | A beat delivered again, anywhere, adds between nothing and one cap. |
| Heartbeats.CompletionNeedsEnoughBeats | backend/apps/learning/services.py:58-71 | Completing by watching needs beats enough for the threshold at the cap. |
| Heartbeats.FullBeatsCompleteExactly | backend/apps/learning/services.py:58-71 | With full beats the lesson completes if and only if there are that many: the bound is exact. |
| Learning.Tables.RecordHeartbeat | backend/apps/learning/services.py:131-192 | The field updates, the bookmark and the course check, in the source's order, are one fold of the beat; without entitlement nothing changes. |
| Learning.Tables.MarkLessonComplete | backend/apps/learning/services.py:196-221 | A manual completion sets the date once, bookmarks, and checks the course only then. |
| Learning.Tables.BookmarkLesson | backend/apps/learning/services.py:224-252 | Enrols on first contact, moves the bookmark, never touches the completion date. |
| Learning.Tables.CompleteCourseIfFinished | backend/apps/learning/services.py:105-127 | Sets the course's date only where it is unset and every lesson is finished. |
| Learning.CompleteMeansEveryLesson | backend/apps/learning/services.py:74-102 | The two counts say a course is complete if and only if it has lessons and all are finished. |
| Learning.EveryRunIsSound | backend/apps/learning/services.py:105-252 | In every run every progress row's learner is enrolled, and every complete course is recorded as completed. |
| Learning.FinishingEveryLessonCompletesTheCourse | backend/apps/learning/services.py:105-127 | In every run, having finished every lesson of a non-empty course means an enrolment with a completion date, although the check runs on one event only. |
| Learning.DatesAreWrittenOnce | backend/apps/learning/services.py:105-221 | Between any two moments no completion date of a lesson or course is moved or cleared, new lessons or not. |
| Learning.AcceptedWrites | backend/apps/learning/services.py:131-252 | A call is accepted if and only if the learner is entitled to an existing lesson, and then writes their row for it and their enrolment in its course, and nothing else; refusals change nothing. |
| Learning.SeatRowIsItsHistory | backend/apps/learning/services.py:131-221 | In every run a learner's row on a lesson is what their own accepted calls on it made, in order, and there is none before the first. |
| Learning.PlayheadIsKept | backend/apps/learning/services.py:156-161 | In every run a row keeps the playhead of the learner's last accepted beat on the lesson, whatever marks and catalogue writes follow. |
| Learning.LessonDateIsItsStep | backend/apps/learning/services.py:170-210 | In every run a lesson's date is the moment of the accepted call that finished it. |
| Learning.CourseDateIsItsStep | backend/apps/learning/services.py:105-127 | In every run a course's date is the moment of the accepted call that finished its last lesson. |
| Learning.BookmarkIsTheLastLesson | backend/apps/learning/services.py:224-252 | In every run a learner is enrolled if and only if some accepted call was on the course, and resumes at the lesson of the last. |
| Learning.OverlappingFinishersMissTheCourse | backend/apps/learning/services.py:196-252 | With the enrolment's row lock and unique constraint, two overlapping completions of open lessons leave the course finished and undated if and only if they were the last two, the bookmark was on one of them, and the course was undated before. |
| NextLesson.QueriesNameOneLesson | backend/apps/learning/selectors.py:34-143 | Whatever rows the id, slug and row queries pick among those that may come first, the row is the one of the id, and the slug is that lesson's and no other lesson's in the course. |
| NextLesson.NextIsTheEarliestGap | backend/apps/learning/selectors.py:34-143 | A lesson may be returned if and only if it is the first of the curriculum not completed. |
| NextLesson.NoNextMeansComplete | backend/apps/learning/selectors.py:131-143 | Nothing is next if and only if the course is complete or has no lessons. |
| NextLesson.FollowingFinishesTheCourse | backend/apps/learning/services.py:196-221 | Marking the next lesson again and again visits exactly the unfinished lessons in curriculum order and ends with the enrolment completed. |
| ProgressCounts.LessonCountIsPlain | backend/apps/learning/selectors.py:80-128 | The distinct count over the join with everyone's progress is the number of lessons. |
| ProgressCounts.PlainLessonCountIsRightExactly | backend/apps/learning/selectors.py:80-128 | Without distinct that count is right if and only if no lesson has two progress rows. |
| ProgressCounts.FilteredCountNeedsNoDistinct | backend/apps/learning/selectors.py:80-128 | On the filtered count distinct changes nothing while a learner has one row per lesson. |
| ProgressCounts.CountsAgreeWithCompletion | backend/apps/learning/selectors.py:80-128 | The query's counts are the simple ones, and for a course with lessons they are equal if and only if it is complete, if and only if nothing is next. |
| MediaAssets.MediaRow.Request | backend/apps/media_assets/services.py:84-127 | A new upload is authorised only over a replaceable asset, and clears what the previous one left except its duration. |
| MediaAssets.ReplacementStartsCleanExactly | backend/apps/media_assets/services.py:102-125 | A replacement leaves the row a first upload would if and only if no duration was on record. |
| MediaAssets.UploadGrantedExactly | backend/apps/media_assets/services.py:44-127 | An upload is granted if and only if the caller may manage the lesson and its media, if any, is PENDING, UPLOADED or FAILED; the row then waits without ids, error or retries. |
| MediaAssets.MediaRow.Complete | backend/apps/media_assets/services.py:143-198 | Verification of what was uploaded, with each refusal and its message. |
| MediaAssets.UploadVerifiedExactly | backend/apps/media_assets/services.py:143-198 | The row becomes UPLOADED with the size found if and only if the caller may, it was PENDING, and a file within limits, of its type and not empty was there; a file too large or of the wrong type fails it with a reason. |
| MediaAssets.MediaRow.ProcessMediaAsset | backend/apps/media_assets/tasks.py:79-142 | Every branch of a hand-off delivery, the guards first. |
| MediaAssets.HandedOverExactly | backend/apps/media_assets/tasks.py:93-142 | A hand-off is recorded if and only if the row is UPLOADED without an id and the provider answered with opaque ones; it then carries them and awaits the report. |
| MediaAssets.NotHandedOverBecause | backend/apps/media_assets/tasks.py:93-121 | Which answer a delivery that hands nothing over gets, and that it leaves the row, or only its count of attempts, or the dead letter. |
| MediaAssets.MediaRow.ApplyWebhook | backend/apps/media_assets/tasks.py:146-217 | A provider report makes the asset it names ready or failed, or changes nothing. |
| MediaAssets.ReportAppliesExactly | backend/apps/media_assets/tasks.py:167-213 | A report is applied if and only if it names the row's asset, and sets ready with its duration or failed with a reason, nothing else. |
| MediaAssets.MediaRow.Retry | backend/apps/media_assets/services.py:202-236 | Only a failed asset goes back to UPLOADED; its provider id stays. |
| MediaAssets.RetryGrantedExactly | backend/apps/media_assets/services.py:224-233 | A retry is granted if and only if the caller may manage the lesson and the row is FAILED. |
| MediaAssets.StrangersLearnNothing | backend/apps/media_assets/services.py:218-228 | Whoever may not manage the lesson gets one answer whatever state its media is in. |
| MediaAssets.RefusalsSayWhy | backend/apps/media_assets/services.py:94-228 | Which refusal a manager of the lesson gets. |
| MediaAssets.EveryRunIsSound | backend/apps/media_assets/models.py:92-119 | In every run READY has both provider ids, FAILED says why, the size is positive, and no provider id is an address. |
| MediaAssets.PlayableCarriesItsHandoff | backend/apps/media_assets/tasks.py:130-142 | In every run a row that is TRANSCODING or READY carries the ids of the last recorded hand-off, and no upload was granted since. |
| MediaAssets.ReadyMeansReported | backend/apps/media_assets/tasks.py:178-186 | In every run a READY row was reported ready, with the duration it shows, and not reported on since. |
| MediaAssets.UploadIsDecidedOnce | backend/apps/media_assets/services.py:84-198 | In every run a row past PENDING follows exactly one decision on the last upload granted, and a verified one has the size found then. |
| MediaAssets.HandoffWasDecided | backend/apps/media_assets/tasks.py:93-142 | In every run a hand-off follows one decision on its upload: the file was verified, with the size on the row, or it was rejected and somebody pressed retry since. |
| MediaAssets.RejectedUploadIsHandedOver | backend/apps/media_assets/services.py:130-236 | From any pending row, a rejected upload is handed over after one retry. |
| MediaAssets.TokensArePlayable | backend/apps/media_assets/services.py:258-303 | In every run a token is issued if and only if the asset is ready and the resolver lets the caller in, as a preview, the instructor, an administrator or before the latest boundary; and it names something playable. |
| MediaAssets.AtMostOneHandoff | backend/apps/media_assets/tasks.py:93-142 | Between two recorded hand-offs a new upload was granted, under any redeliveries, reports and retry clicks, unless the first gave no asset id. |
| MediaAssets.EmptyIdIsHandedOverAgain | backend/apps/media_assets/tasks.py:93-97 | With an empty provider id, a failure report and one retry hand the same master over again. |
| MediaAssets.RetryAfterHandoffIsStuck | backend/apps/media_assets/services.py:227-236 | After a retry of an asset with a provider id, no run of deliveries, retries, confirmations and reports on other assets changes the row. |
| MediaAssets.RetryWorksExactly | backend/apps/media_assets/services.py:227-236 | For a failed asset and any acceptable answer of the provider, the delivery after a retry hands the master over if and only if no provider id is on the row. |
| MediaAssets.RetryCanSucceedExactly | backend/apps/media_assets/tasks.py:93-142 | Over runs of deliveries, retries, confirmations and other assets' reports, a retry can lead to a hand-off if and only if there is no provider id, and every such run leaves the row alone if and only if there is one. |
| MediaAssets.ChainIsBounded | backend/apps/media_assets/tasks.py:110-121 | Whatever uploads, reports and clicks do to the row between attempts, a delivery chain ends within the bound and waits at most 20*(2^N - 1) seconds from its start. |
| MediaAssets.OutageSpendsTheWholeBudget | backend/apps/media_assets/tasks.py:41-121 | If the row is waiting and the provider fails at every attempt, the chain takes exactly N+1 attempts and that whole wait, and dead-letters with a message. |
| Admission.Desk.Create | backend/apps/accounts/services.py:129-152 | An account with a fresh lowercased address, or a refusal that changes nothing. |
| Admission.Desk.RegisterAccount | backend/apps/accounts/services.py:156-193 | With the gate on, the account and the spent invitation together or neither. |
| Admission.Desk.IssueInvitation | backend/apps/accounts/services.py:459-527 | A new or reopened invitation with its audit row; never over a spent one, never without a reason. |
| Admission.Desk.RevokeInvitation | backend/apps/accounts/services.py:531-568 | A revocation with its audit row; of one already revoked, nothing. |
| Admission.Desk.ConsumeInvitation | backend/apps/accounts/services.py:571-659 | The conditional update spends the account's own usable invitation once, with its audit row. |
| Admission.RefusalsChangeNothing | backend/apps/accounts/services.py:156-193 | Every refusal, and revoking again, leaves accounts, invitations and audit rows as they were. |
| Admission.SpentForEver | backend/apps/accounts/services.py:459-659 | A spent invitation is never altered by any later step. |
| Admission.AdmittedAccountsHoldTheirInvitation | backend/apps/accounts/services.py:156-193 | Every account registered under the gate has, for ever, a spent invitation at its own address naming it. |
| Admission.SpentInvitationsAdmittedSomeone | backend/apps/accounts/services.py:571-659 | Every spent invitation names the account one gated registration created. |
| Admission.AdmissionIsOneToOne | backend/apps/accounts/services.py:571-659 | Gated registrations sharing an account or an address are the same one: with the two statements above, a bijection. |
| Admission.ConsumptionIsAuditedOnce | backend/apps/accounts/services.py:571-659 | The audit trail holds one consumption for a spent address and none for any other. |
| Admission.EveryAddressHasOneAccount | backend/apps/accounts/services.py:129-152 | In every run accounts hold lowercased addresses and no two the same. |
| Admission.AdministratorsDecide | backend/apps/accounts/services.py:459-568 | An issue or revocation is accepted if and only if an administrator with a reason asks it, of an address not yet admitted, or of an open invitation. |
| Admission.RefusalsSayWhy | backend/apps/accounts/services.py:129-659 | Which refusal each step gets, from a blank or taken address to an unusable invitation. |
| Admission.OpenExactly | backend/apps/accounts/services.py:459-659 | In every run an invitation is open if and only if its last issue has been neither revoked nor spent, and it expires thirty days after that issue. |
| Admission.RegisteredExactly | backend/apps/accounts/services.py:156-193 | In every run a gated registration of a new address succeeds if and only if its last issue is less than thirty days old and has been neither revoked nor spent. |
| Admission.RevokedStaysOut | backend/apps/accounts/services.py:531-568 | In every run, from its revocation until it is issued again, an invitation admits nobody and keeps its date, and revoking it again changes and records nothing. |
| Admission.AddressIgnoresCase | backend/apps/accounts/services.py:400-422 | Invitations and registrations meet at one address whatever the case each was typed in. |
| Admission.StripExactly | backend/apps/accounts/services.py:400-422 | An address is taken without the blanks at its ends, and with everything between. |
| Admission.LowerExactly | backend/apps/accounts/services.py:129-152 | Addresses are compared with ASCII capitals made small and every other character as it is. |
| Admission.AuditIsTheHistory | backend/apps/accounts/services.py:459-659 | In every run the audit rows are the accepted issues, revocations and gated registrations, in order, each at its own address. |

## Left out

- Entitlements.TrialCovers: always true, as in the source, whose scoping rule for trials is undecided.
- NextLesson.FollowingFinishesTheCourse: for an entitled learner and a catalogue that does not change meanwhile.
- Learning.FinishingEveryLessonCompletesTheCourse: for atomic steps and without deletion of lessons; deleting the last unfinished lesson completes a course with no step to record it.
- LessonSubtitles.SubtitlesBelongExactly: asks that the provider's asset ids are not empty and never repeat, since the row tells media apart by that id alone.
- TranscriptCache.ServedIsCurrent: asks that two approvals of one transcript never share a timestamp, which a strictly increasing clock gives; without it the statement is false, and `TranscriptCache.StaleExactlyWhenWordsChanged` says exactly when an answer is stale.
- Row locks and READ COMMITTED interleavings, except in `TranscriptRaces` and `Learning.OverlappingFinishersMissTheCourse`.
- HTTP views other than the subtitle file, with their serializers, routing, throttles and admin pages; the panel view and search.
- How permission is decided: ownership, administrator and entitlement are inputs of the services that ask for them, except for playback tokens, which follow the resolver; which lessons a learner can see is an input too.
- Providers, storage, Celery, Redis, JSON and signatures: what they answer is arbitrary. One provider of each kind is configured, so a job id or asset id identifies a row by itself; billing ids and their unique constraint are absent.
- Deleting stored objects, emails, logging, and the free text of audit rows and review notes.
- Transcripts of the translation kind; the rounding of a provider's confidence to thousandths is done before the model sees it.
- Segments are named by their position, so an edit holding a primary key that a callback has since replaced is not modelled.
- A step reads the clock once; the source reads it again for each column.
- The version string is the pair of transcript and timestamp; the precision of its printed form is not modelled.
- The completion threshold is a fraction p/q; the source multiplies by a float.
- Lowercasing and stripping are those of ASCII text; other characters are left alone.
- Cue settings, regions, styles and the byte order mark of a general WebVTT file: the printer writes none.
- The source leaves the order of the duplicate finding's examples open; the model takes the smallest first.
- Creating and updating courses, lesson titles and preview flags, profiles, passwords, email verification and refunds.
