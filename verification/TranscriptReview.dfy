/**
  What review does to a transcript over a run: when a row carries a signature, when it is approved, and
  when a human's edit outlives the next delivery of the provider's callback.
*/
module TranscriptReview {
  import opened Backoff
  import opened Options
  import opened Rendering
  import opened Transcripts
  import opened TranscriptRuns

  // ----- one step -----

  /** An accepted edit changes one cue, marks it, and leaves nothing signed or served. */
  lemma EditWithdrawsApproval(db: Database, key: Key, position: nat, text: Option<string>, startMs: Option<int>,
                              endMs: Option<int>, now: Time, ifNoneMatch: Option<Version>)
    requires Sound(db) && Edit(db, key, position, true, text, startMs, endMs, now).1 == Saved
    ensures var after := Edit(db, key, position, true, text, startMs, endMs, now).0;
            && key in db.transcripts && key in after.transcripts && position in db.transcripts[key].segments
            && var t, u := db.transcripts[key], after.transcripts[key];
               && u.segments.Keys == t.segments.Keys && u.updatedAt == now
               && (forall p :: p in t.segments && p != position ==> u.segments[p] == t.segments[p])
               && u.segments[position].isEdited && 0 <= u.segments[position].startMs < u.segments[position].endMs
               && (text.Some? ==> u.segments[position].text == text.value)
               && (text.None? ==> u.segments[position].text == t.segments[position].text)
               && (startMs.Some? ==> u.segments[position].startMs == startMs.value)
               && (endMs.Some? ==> u.segments[position].endMs == endMs.value)
               && u.status != Approved && Get(after, key, Granted, ifNoneMatch).1 == NotFound
               && (t.status == Approved ==> u.reviewedBy.None? && u.approvedAt.None?)
  {
    hide Sound, Rendered;
  }

  /** Opening a review of an approved transcript stops it being served, but its old signature stays on the row. */
  lemma StartReviewKeepsTheSignature(db: Database, key: Key, now: Time, ifNoneMatch: Option<Version>)
    requires Sound(db) && IsApproved(db, key)
    ensures var after := Move(db, key, InReview, true, now).0;
            && key in after.transcripts && after.transcripts[key].status == InReview
            && after.transcripts[key].reviewedBy.Some? && after.transcripts[key].approvedAt.Some?
            && Get(after, key, Granted, ifNoneMatch).1 == NotFound
  {
    hide Rendered, JobsUnique;
  }
  // ----- signatures -----

  ghost predicate IsSigned(db: Database, key: Key) {
    key in db.transcripts && db.transcripts[key].reviewedBy.Some?
  }

  /** An edit that is accepted while the transcript is approved. */
  ghost predicate WithdrawsAt(db: Database, op: Op, key: Key) {
    op.EditOp? && op.key == key && Step(db, op).1 == Saved && IsApproved(db, key)
  }

  /** A review opened on a transcript that is approved. */
  ghost predicate ReopensAt(db: Database, op: Op, key: Key) {
    op.StartReviewOp? && op.key == key && Step(db, op).1 == Saved && IsApproved(db, key)
  }

  lemma SignedStep(db: Database, op: Op, key: Key)
    requires Sound(db)
    ensures IsSigned(Step(db, op).0, key) <==>
            Approves(db, op, key) || (IsSigned(db, key) && !WithdrawsAt(db, op, key))
    ensures IsApproved(Step(db, op).0, key) <==>
            Approves(db, op, key) || (IsApproved(db, key) && !WithdrawsAt(db, op, key) && !ReopensAt(db, op, key))
  {
    hide Request, Deliver, Constrained;
    match op
    case RequestOp(k, media, retries, max, submission, now) =>
      if media.MediaReady? {
        RequestWrites(db, k, retries, max, submission, now);
      } else {
        RequestOfUnready(db, op);
      }
    case DeliverOp(jobId) =>
      DeliverWrites(db, jobId);
      var after := Deliver(db, jobId).0;
      if after.transcripts != db.transcripts {
        var k :| WroteRow(db, jobId, after, k);
      }
    case _ => ReviewedStep(db, op, key);
  }

  lemma ReviewedStep(db: Database, op: Op, key: Key)
    requires !op.RequestOp? && !op.DeliverOp?
    ensures IsSigned(Step(db, op).0, key) <==>
            Approves(db, op, key) || (IsSigned(db, key) && !WithdrawsAt(db, op, key))
    ensures IsApproved(Step(db, op).0, key) <==>
            Approves(db, op, key) || (IsApproved(db, key) && !WithdrawsAt(db, op, key) && !ReopensAt(db, op, key))
  {
    hide Request, Deliver, GetOr, Rendered;
  }

  /** The approval at step `a` has not been withdrawn before step `n`. */
  ghost predicate SignatureStands(ops: seq<Op>, a: nat, n: nat, key: Key)
    requires a < n <= |ops|
  {
    && Approves(At(ops, a), ops[a], key)
    && forall m :: a < m < n ==> !WithdrawsAt(At(ops, m), ops[m], key)
  }

  /** Nor has a review been opened again since. */
  ghost predicate ApprovalStands(ops: seq<Op>, a: nat, n: nat, key: Key)
    requires a < n <= |ops|
  {
    && SignatureStands(ops, a, n, key)
    && forall m :: a < m < n ==> !ReopensAt(At(ops, m), ops[m], key)
  }

  ghost predicate SignatureHolds(ops: seq<Op>, n: nat, key: Key)
    requires n <= |ops|
  {
    exists a :: 0 <= a < n && SignatureStands(ops, a, n, key)
  }

  ghost predicate ApprovalHolds(ops: seq<Op>, n: nat, key: Key)
    requires n <= |ops|
  {
    exists a :: 0 <= a < n && ApprovalStands(ops, a, n, key)
  }

  /**
    A row is signed exactly when some approval was followed by no accepted edit of the approved words, and it
    is approved exactly when, besides, nobody opened the review again: that is the only way a transcript that
    is not approved keeps a signature.
  */
  lemma {:induction false} SignedExactly(ops: seq<Op>, n: nat, key: Key)
    requires n <= |ops|
    ensures IsSigned(At(ops, n), key) <==> SignatureHolds(ops, n, key)
    ensures IsApproved(At(ops, n), key) <==> ApprovalHolds(ops, n, key)
    decreases n
  {
    hide Step, Sound, Approves, WithdrawsAt, ReopensAt, SignatureHolds, ApprovalHolds;
    if n > 0 {
      SignedExactly(ops, n - 1, key);
      AtNext(ops, n - 1);
      EveryRunIsSound(ops[..n - 1]);
      SignedStep(At(ops, n - 1), ops[n - 1], key);
      SignatureGrows(ops, n - 1, n, key);
      ApprovalGrows(ops, n - 1, n, key);
    } else {
      assert ops[..0] == [];
      NothingHolds(ops, key);
    }
  }

  lemma NothingHolds(ops: seq<Op>, key: Key)
    ensures !SignatureHolds(ops, 0, key) && !ApprovalHolds(ops, 0, key)
  {
  }

  lemma SignatureGrows(ops: seq<Op>, n: nat, next: nat, key: Key)
    requires n < |ops| && next == n + 1
    ensures SignatureHolds(ops, next, key) <==>
            Approves(At(ops, n), ops[n], key) ||
            (SignatureHolds(ops, n, key) && !WithdrawsAt(At(ops, n), ops[n], key))
  {
    hide Step, Approves, WithdrawsAt, At;
    if Approves(At(ops, n), ops[n], key) {
      assert SignatureStands(ops, n, next, key);
    }
    if SignatureHolds(ops, n, key) && !WithdrawsAt(At(ops, n), ops[n], key) {
      var a :| 0 <= a < n && SignatureStands(ops, a, n, key);
      assert SignatureStands(ops, a, next, key);
    }
    if SignatureHolds(ops, next, key) {
      var a :| 0 <= a < next && SignatureStands(ops, a, next, key);
      assert a < n ==> SignatureStands(ops, a, n, key);
    }
  }

  lemma ApprovalGrows(ops: seq<Op>, n: nat, next: nat, key: Key)
    requires n < |ops| && next == n + 1
    ensures ApprovalHolds(ops, next, key) <==>
            Approves(At(ops, n), ops[n], key) ||
            (ApprovalHolds(ops, n, key) &&
             !WithdrawsAt(At(ops, n), ops[n], key) && !ReopensAt(At(ops, n), ops[n], key))
  {
    hide Step, Approves, WithdrawsAt, ReopensAt, At;
    if Approves(At(ops, n), ops[n], key) {
      assert ApprovalStands(ops, n, next, key);
    }
    if ApprovalHolds(ops, n, key) && !WithdrawsAt(At(ops, n), ops[n], key) && !ReopensAt(At(ops, n), ops[n], key) {
      var a :| 0 <= a < n && ApprovalStands(ops, a, n, key);
      assert ApprovalStands(ops, a, next, key);
    }
    if ApprovalHolds(ops, next, key) {
      var a :| 0 <= a < next && ApprovalStands(ops, a, next, key);
      assert a < n ==> ApprovalStands(ops, a, n, key);
    }
  }

  // ----- human edits against the provider's callback -----

  /**
    A delivery leaves a transcript's cues as they were exactly when the callback is refused, or they are the
    provider's own already; and in every other case it puts the provider's in their place.
  */
  lemma RedeliveryReplacesCuesExactly(db: Database, jobId: JobId, key: Key)
    requires Sound(db) && key in db.transcripts && db.transcripts[key].jobId == Some(jobId)
    ensures var t, after := db.transcripts[key], Deliver(db, jobId).0;
            key in after.transcripts &&
            (after.transcripts[key].segments == t.segments <==>
              || jobId !in db.events || t.status in {InReview, Approved}
              || db.events[jobId].result.status == JobFailed || !Storable(db.events[jobId].result)
              || t.segments == RowsOf(db.events[jobId].result.segments))
    ensures var after := Deliver(db, jobId).0;
            after.transcripts[key].segments != db.transcripts[key].segments ==>
              jobId in db.events && after.transcripts[key].segments == RowsOf(db.events[jobId].result.segments)
  {
    hide RowsOf, Storable, Truncate, FindByJob;
    FindByJobFinds(db.transcripts, jobId, key);
  }

  ghost predicate UnderReview(db: Database, key: Key) {
    key in db.transcripts && (db.transcripts[key].status == InReview || db.transcripts[key].status == Approved)
  }

  ghost predicate OpensAt(db: Database, op: Op, key: Key) {
    op.StartReviewOp? && op.key == key && Step(db, op).1 == Saved
  }

  ghost predicate ClosesAt(db: Database, op: Op, key: Key) {
    op.ReopenOp? && op.key == key && Step(db, op).1 == Saved
  }

  ghost predicate IsEdited(db: Database, key: Key, position: nat) {
    && key in db.transcripts && position in db.transcripts[key].segments
    && db.transcripts[key].segments[position].isEdited
  }

  ghost predicate HasWords(db: Database, key: Key, jobId: JobId) {
    key in db.transcripts && Worded(db.transcripts[key].status) && db.transcripts[key].jobId == Some(jobId)
  }

  /** A review step, a submission or a callback on a transcript that has its words. */
  lemma WordedStep(db: Database, op: Op, key: Key, jobId: JobId, position: nat)
    requires Sound(db) && HasWords(db, key, jobId)
    ensures HasWords(Step(db, op).0, key, jobId)
    ensures UnderReview(Step(db, op).0, key) <==>
            OpensAt(db, op, key) || (UnderReview(db, key) && !ClosesAt(db, op, key))
    ensures op != DeliverOp(jobId) && IsEdited(db, key, position) ==> IsEdited(Step(db, op).0, key, position)
  {
    hide Request, Deliver, Constrained, RowsOf, Storable;
    match op
    case RequestOp(k, media, retries, max, submission, now) =>
      if media.MediaReady? {
        RequestWrites(db, k, retries, max, submission, now);
      } else {
        RequestOfUnready(db, op);
      }
    case DeliverOp(other) =>
      DeliverWrites(db, other);
      var after := Deliver(db, other).0;
      if after.transcripts != db.transcripts {
        var k :| WroteRow(db, other, after, k);
        assert RowSound(db.transcripts[k], db.events);
      }
    case _ => WordedReview(db, op, key, jobId, position);
  }

  lemma WordedReview(db: Database, op: Op, key: Key, jobId: JobId, position: nat)
    requires HasWords(db, key, jobId) && !op.RequestOp? && !op.DeliverOp?
    ensures HasWords(Step(db, op).0, key, jobId)
    ensures UnderReview(Step(db, op).0, key) <==>
            OpensAt(db, op, key) || (UnderReview(db, key) && !ClosesAt(db, op, key))
    ensures IsEdited(db, key, position) ==> IsEdited(Step(db, op).0, key, position)
  {
    hide Request, Deliver, GetOr, Rendered;
  }

  /** No review of `key` was closed from step `m` on, before step `n`. */
  ghost predicate LeftOpen(ops: seq<Op>, m: nat, n: nat, key: Key)
    requires m <= n <= |ops|
  {
    forall k :: m <= k < n ==> !ClosesAt(At(ops, k), ops[k], key)
  }

  /** Between the steps `i` and `n` a review was open to begin with, or was opened, and was left open. */
  ghost predicate ReviewHeld(ops: seq<Op>, i: nat, n: nat, key: Key)
    requires i <= n <= |ops|
  {
    || (UnderReview(At(ops, i), key) && LeftOpen(ops, i, n, key))
    || exists m :: i <= m < n && OpensAt(At(ops, m), ops[m], key) && LeftOpen(ops, m + 1, n, key)
  }

  lemma LeftOpenGrows(ops: seq<Op>, m: nat, n: nat, key: Key)
    requires m <= n < |ops|
    ensures LeftOpen(ops, m, n + 1, key) <==> LeftOpen(ops, m, n, key) && !ClosesAt(At(ops, n), ops[n], key)
  {
    hide Step, ClosesAt, At;
  }

  lemma HeldGrows(ops: seq<Op>, i: nat, n: nat, key: Key)
    requires i <= n < |ops|
    ensures ReviewHeld(ops, i, n + 1, key) <==>
            OpensAt(At(ops, n), ops[n], key) ||
            (ReviewHeld(ops, i, n, key) && !ClosesAt(At(ops, n), ops[n], key))
  {
    hide Step, UnderReview, At, LeftOpen;
    if OpensAt(At(ops, n), ops[n], key) {
      assert LeftOpen(ops, n + 1, n + 1, key) by { NothingClosed(ops, n + 1, key); }
    }
    LeftOpenGrows(ops, i, n, key);
    if m :| i <= m < n && OpensAt(At(ops, m), ops[m], key) && LeftOpen(ops, m + 1, n, key) {
      LeftOpenGrows(ops, m + 1, n, key);
    }
    if m :| i <= m < n + 1 && OpensAt(At(ops, m), ops[m], key) && LeftOpen(ops, m + 1, n + 1, key) {
      if m < n {
        LeftOpenGrows(ops, m + 1, n, key);
      }
    }
  }

  lemma NothingClosed(ops: seq<Op>, n: nat, key: Key)
    requires n <= |ops|
    ensures LeftOpen(ops, n, n, key)
  {
  }

  lemma {:induction false} WordedRun(ops: seq<Op>, i: nat, n: nat, key: Key, jobId: JobId, position: nat)
    requires i <= n <= |ops| && HasWords(At(ops, i), key, jobId)
    ensures HasWords(At(ops, n), key, jobId)
    ensures UnderReview(At(ops, n), key) <==> ReviewHeld(ops, i, n, key)
    ensures IsEdited(At(ops, i), key, position) && (forall m :: i <= m < n ==> ops[m] != DeliverOp(jobId)) ==>
            IsEdited(At(ops, n), key, position)
    decreases n
  {
    hide Step, Sound, HasWords, UnderReview, IsEdited, OpensAt, ClosesAt;
    if i < n {
      WordedRun(ops, i, n - 1, key, jobId, position);
      AtNext(ops, n - 1);
      EveryRunIsSound(ops[..n - 1]);
      WordedStep(At(ops, n - 1), ops[n - 1], key, jobId, position);
      HeldGrows(ops, i, n - 1, key);
    } else {
      assert LeftOpen(ops, i, i, key);
    }
  }

  /** What an accepted edit leaves: words, a marked cue, and a review open exactly if one was. */
  lemma EditLeaves(db: Database, op: Op, jobId: JobId)
    requires Sound(db) && op.EditOp? && Step(db, op).1 == Saved
    requires op.key in db.transcripts && db.transcripts[op.key].jobId == Some(jobId)
    ensures HasWords(db, op.key, jobId) && HasWords(Step(db, op).0, op.key, jobId)
    ensures IsEdited(Step(db, op).0, op.key, op.position)
  {
    hide GetOr, Sound;
  }

  /**
    An accepted edit, and then the next delivery of the transcript's own callback with nothing but other steps
    between: the edited cue is still there exactly when a review held at that moment, or the tables refuse
    the result. An edit made before a review is lost unless somebody opens one in time and leaves it open.
  */
  lemma {:induction false} EditOutlivesDeliveryExactly(ops: seq<Op>, i: nat, j: nat, jobId: JobId)
    requires i < j < |ops| && ops[i].EditOp? && AnswerAt(ops, i) == Saved && ops[j] == DeliverOp(jobId)
    requires ops[i].key in At(ops, i).transcripts && At(ops, i).transcripts[ops[i].key].jobId == Some(jobId)
    requires forall m :: i < m < j ==> ops[m] != ops[j]
    ensures jobId in At(ops, j).events
    ensures IsEdited(At(ops, j + 1), ops[i].key, ops[i].position) <==>
            ReviewHeld(ops, i, j, ops[i].key) || !Storable(At(ops, j).events[jobId].result)
  {
    hide Step, Sound, OpensAt, ClosesAt, ReviewHeld, IsEdited, UnderReview, Run;
    var key, position := ops[i].key, ops[i].position;
    EveryRunIsSound(ops[..i]);
    EditLeaves(At(ops, i), ops[i], jobId);
    AtNext(ops, i);
    WordedRun(ops, i, j, key, jobId, position);
    WordedRun(ops, i + 1, j, key, jobId, position);
    EveryRunIsSound(ops[..j]);
    AtNext(ops, j);
    DeliveredToWords(At(ops, j), jobId, key, position);
  }

  lemma DeliveredToWords(db: Database, jobId: JobId, key: Key, position: nat)
    requires Sound(db) && HasWords(db, key, jobId) && IsEdited(db, key, position)
    ensures jobId in db.events
    ensures IsEdited(Step(db, DeliverOp(jobId)).0, key, position) <==>
            UnderReview(db, key) || !Storable(db.events[jobId].result)
  {
    hide RowsOf, Storable, Truncate, FindByJob, RowConstrained;
    FindByJobFinds(db.transcripts, jobId, key);
    assert RowSound(db.transcripts[key], db.events);
    ProviderCuesAreUnedited(db.events[jobId].result.segments);
  }

  lemma {:induction false} ProviderCuesAreUnedited(segments: seq<Segment>)
    ensures forall p :: p in RowsOf(segments) ==> !RowsOf(segments)[p].isEdited
  {
    if segments != [] {
      ProviderCuesAreUnedited(segments[..|segments| - 1]);
    }
  }
}
