/**
  The file learners are served, its cache and its ETag: when an answer is the current print, with and
  without a clock that never ties.
*/
module TranscriptCache {
  import opened Backoff
  import opened Options
  import opened Ordering
  import opened Rendering
  import opened RoundTrip
  import opened PrintedFiles
  import opened Transcripts
  import opened TranscriptRuns

  /** What a version names: the approved row of `key` carrying that timestamp, printed. */
  ghost predicate Prints(db: Database, version: Version, body: string) {
    && IsApproved(db, version.key) && db.transcripts[version.key].updatedAt == version.stamp
    && Rendered(db.transcripts[version.key]) == Some(body)
  }

  /** A request that prints the file anew and stores it. */
  ghost predicate Fills(db: Database, op: Op, version: Version, body: string) {
    op.GetOp? && version !in db.cache && Step(db, op).1 == Vtt200(version, body) && Prints(db, version, body)
  }

  lemma StepFillsCache(db: Database, op: Op, version: Version)
    requires version in Step(db, op).0.cache
    ensures var body := Step(db, op).0.cache[version];
            if version in db.cache then db.cache[version] == body else Fills(db, op, version, body)
  {
    hide Rendered;
    match op
    case RequestOp(key, media, retries, max, submission, now) =>
      RequestKeepsCache(db, key, media, retries, max, submission, now);
    case DeliverOp(jobId) => DeliverKeepsCache(db, jobId);
    case _ =>
  }

  lemma RequestKeepsCache(db: Database, key: Key, media: Media, retries: nat, max: nat,
                          submission: Submission, now: Time)
    ensures Request(db, key, media, retries, max, submission, now).0.cache == db.cache
  {
    hide FailedRow, RetryCountdown, JobTaken;
  }

  lemma DeliverKeepsCache(db: Database, jobId: JobId)
    ensures Deliver(db, jobId).0.cache == db.cache
  {
    hide Deliver;
    DeliverKeepsEvents(db, jobId);
  }

  /** With no assumption at all: every cached body was printed, and was right, at the step that stored it. */
  lemma {:induction false} CacheProvenance(ops: seq<Op>, n: nat, version: Version) returns (i: nat)
    requires n <= |ops| && version in At(ops, n).cache
    ensures i < n && Fills(At(ops, i), ops[i], version, At(ops, n).cache[version])
    decreases n
  {
    hide Step, Fills;
    assert n > 0;
    AtNext(ops, n - 1);
    StepFillsCache(At(ops, n - 1), ops[n - 1], version);
    if version in At(ops, n - 1).cache {
      i := CacheProvenance(ops, n - 1, version);
    } else {
      i := n - 1;
    }
  }

  /** The step approves a transcript; a refused approval writes nothing and does not count. */
  ghost predicate Signs(ops: seq<Op>, i: nat)
    requires i < |ops|
  {
    ops[i].ApproveOp? && AnswerAt(ops, i) == Saved
  }

  /** No two approvals of one transcript carry the same timestamp; a strictly increasing clock gives this. */
  ghost predicate StampsDistinct(ops: seq<Op>) {
    forall i, j :: 0 <= i < j < |ops| && Signs(ops, i) && Signs(ops, j) && ops[i].key == ops[j].key ==>
      ops[i].now != ops[j].now
  }

  lemma ApprovalSigns(ops: seq<Op>, i: nat, key: Key)
    requires i < |ops| && Approves(At(ops, i), ops[i], key)
    ensures Signs(ops, i) && ops[i].key == key
  {
    hide Run;
  }

  lemma SameVersionSameRow(ops: seq<Op>, i: nat, j: nat, key: Key)
    requires StampsDistinct(ops) && i <= |ops| && j <= |ops|
    requires IsApproved(At(ops, i), key) && IsApproved(At(ops, j), key)
    requires At(ops, i).transcripts[key].updatedAt == At(ops, j).transcripts[key].updatedAt
    ensures At(ops, i).transcripts[key] == At(ops, j).transcripts[key]
  {
    hide Run, Step, Signs;
    var a := LastApproval(ops, i, key);
    var b := LastApproval(ops, j, key);
    ApprovalSigns(ops, a, key);
    ApprovalSigns(ops, b, key);
    assert a == b;
  }

  /** Every file served is the uncached print of the transcript as it is approved at that moment. */
  lemma {:induction false} ServedIsCurrent(ops: seq<Op>, j: nat)
    requires StampsDistinct(ops) && j < |ops| && AnswerAt(ops, j).Vtt200?
    ensures Prints(At(ops, j), AnswerAt(ops, j).etag, AnswerAt(ops, j).body)
  {
    hide StampsDistinct, Run, Rendered;
    var db, version := At(ops, j), AnswerAt(ops, j).etag;
    ServedFrom(db, ops[j]);
    if version in db.cache {
      var i := CacheProvenance(ops, j, version);
      SameVersionSameRow(ops, i, j, version.key);
    }
  }

  lemma ServedFrom(db: Database, op: Op)
    requires Step(db, op).1.Vtt200?
    ensures var Vtt200(version, body) := Step(db, op).1;
            && op.GetOp? && op.key == version.key
            && IsApproved(db, version.key) && db.transcripts[version.key].updatedAt == version.stamp
            && (if version in db.cache then body == db.cache[version]
                else Rendered(db.transcripts[version.key]) == Some(body))
  {
    hide Rendered, FailedRow, TranscribedRow, Acceptable, FindByJob, RetryCountdown, JobTaken;
  }

  /** A 304 is answered only to a client whose copy, got under that ETag, is still the current print. */
  lemma {:induction false} NotModifiedIsCurrent(ops: seq<Op>, i: nat, j: nat)
    requires StampsDistinct(ops) && i < j < |ops|
    requires AnswerAt(ops, i).Vtt200? && AnswerAt(ops, j) == NotModified(AnswerAt(ops, i).etag)
    ensures Prints(At(ops, j), AnswerAt(ops, i).etag, AnswerAt(ops, i).body)
  {
    hide StampsDistinct, Run, Rendered;
    ServedIsCurrent(ops, i);
    NotModifiedFrom(At(ops, j), ops[j]);
    SameVersionSameRow(ops, i, j, AnswerAt(ops, i).etag.key);
  }

  lemma NotModifiedFrom(db: Database, op: Op)
    requires Step(db, op).1.NotModified?
    ensures var version := Step(db, op).1.etag;
            IsApproved(db, version.key) && db.transcripts[version.key].updatedAt == version.stamp
  {
    hide Rendered, FailedRow, TranscribedRow, Acceptable, FindByJob, RetryCountdown, JobTaken;
  }

  /** Printing never fails on rows that meet the constraints, so no learner gets an error for one. */
  lemma PrintingNeverFails(t: Transcript)
    requires RowConstrained(t)
    ensures Rendered(t).Some?
  {
    hide Vtt, Join;
    RowsArePrintable(t);
    PrintableIsPrinted(InOrder(t.segments));
  }

  lemma RowsArePrintable(t: Transcript)
    requires RowConstrained(t)
    ensures Printable(InOrder(t.segments))
  {
  }

  lemma PrintableIsPrinted(segments: seq<Segment>)
    requires Printable(segments)
    ensures Vtt(segments).Some?
  {
  }

  /** A served file, read back, gives the cues the reviewer signed, in the order of their positions. */
  lemma {:induction false} LearnersReadWhatWasSigned(ops: seq<Op>, j: nat) returns (a: nat)
    requires StampsDistinct(ops) && j < |ops| && AnswerAt(ops, j).Vtt200?
    ensures var key := AnswerAt(ops, j).etag.key;
            && a < j && Approves(At(ops, a), ops[a], key)
            && Read(AnswerAt(ops, j).body) == Some(ShownAll(InOrder(At(ops, a).transcripts[key].segments)))
  {
    hide StampsDistinct, Run, Read, InOrder, Step, Vtt;
    ServedIsCurrent(ops, j);
    var key := AnswerAt(ops, j).etag.key;
    a := LastApproval(ops, j, key);
    var t := At(ops, j).transcripts[key];
    RenderedIsPrintable(t);
    ReadPrinted(InOrder(t.segments));
  }

  lemma RenderedIsPrintable(t: Transcript)
    requires Rendered(t).Some?
    ensures Printable(InOrder(t.segments))
  {
    hide InOrder, Join;
  }

  // ----- and when the clock ties -----

  /** The columns a file is printed from; whether a human touched a cue is not among them. */
  function Words(segments: map<nat, Cue>): map<nat, Segment> {
    map p | p in segments :: RowAsSegment(segments, p)
  }

  lemma ListedAmong(a: map<nat, Cue>, b: map<nat, Cue>, p: nat)
    requires InOrder(a) == InOrder(b) && p in a
    ensures p in b && RowAsSegment(a, p) == RowAsSegment(b, p)
  {
    var i :| 0 <= i < |Ascend(a.Keys)| && Ascend(a.Keys)[i] == p;
    assert InOrder(a)[i] == RowAsSegment(a, p);
    assert Ascend(b.Keys)[i] in Ascend(b.Keys);
    assert InOrder(b)[i] == RowAsSegment(b, Ascend(b.Keys)[i]);
  }

  lemma SameListingSameWords(a: map<nat, Cue>, b: map<nat, Cue>)
    requires InOrder(a) == InOrder(b)
    ensures Words(a) == Words(b)
  {
    hide InOrder, RowAsSegment;
    forall p
      ensures p in a <==> p in b
      ensures p in a && p in b ==> RowAsSegment(a, p) == RowAsSegment(b, p)
    {
      if p in a {
        ListedAmong(a, b, p);
      }
      if p in b {
        ListedAmong(b, a, p);
      }
    }
  }

  lemma SameWordsSameListing(a: map<nat, Cue>, b: map<nat, Cue>)
    requires Words(a) == Words(b)
    ensures InOrder(a) == InOrder(b)
  {
    hide RowAsSegment, Ascend;
    assert a.Keys == Words(a).Keys && b.Keys == Words(b).Keys;
    var positions := Ascend(a.Keys);
    forall i | 0 <= i < |positions|
      ensures InOrder(a)[i] == InOrder(b)[i]
    {
      assert positions[i] in positions;
      assert positions[i] in a && positions[i] in b;
      assert Words(a)[positions[i]] == Words(b)[positions[i]];
    }
  }

  /** Two rows print the same file exactly when they hold the same words at the same times and positions. */
  lemma PrintsTellWords(t: Transcript, u: Transcript)
    requires RowConstrained(t) && RowConstrained(u)
    ensures Rendered(t) == Rendered(u) <==> Words(t.segments) == Words(u.segments)
  {
    hide Vtt, Words, InOrder;
    RowsArePrintable(t);
    RowsArePrintable(u);
    PrintsTellSegments(InOrder(t.segments), InOrder(u.segments));
    if InOrder(t.segments) == InOrder(u.segments) {
      SameListingSameWords(t.segments, u.segments);
    }
    if Words(t.segments) == Words(u.segments) {
      SameWordsSameListing(t.segments, u.segments);
    }
  }

  /**
    With no assumption on the clock: a file served at step `i`, or confirmed by a 304 at a later step `j`, was
    printed at some step `filled`, and is current exactly when the words then and at `j` are the same. So it
    is stale only after a correction was made and signed again under an unchanged timestamp.
  */
  lemma StaleExactlyWhenWordsChanged(ops: seq<Op>, i: nat, j: nat) returns (filled: nat)
    requires i <= j < |ops| && AnswerAt(ops, i).Vtt200?
    requires j == i || AnswerAt(ops, j) == NotModified(AnswerAt(ops, i).etag)
    ensures var Vtt200(version, body) := AnswerAt(ops, i);
            && filled <= i && Fills(At(ops, filled), ops[filled], version, body)
            && IsApproved(At(ops, j), version.key)
            && (Prints(At(ops, j), version, body) <==>
                Words(At(ops, filled).transcripts[version.key].segments)
                == Words(At(ops, j).transcripts[version.key].segments))
  {
    hide Run, Rendered, Words, Step;
    var Vtt200(version, body) := AnswerAt(ops, i);
    ServedFrom(At(ops, i), ops[i]);
    if version in At(ops, i).cache {
      filled := CacheProvenance(ops, i, version);
    } else {
      filled := i;
    }
    if i < j {
      NotModifiedFrom(At(ops, j), ops[j]);
    }
    EveryRunIsSound(ops[..filled]);
    EveryRunIsSound(ops[..j]);
    PrintsTellWords(At(ops, filled).transcripts[version.key], At(ops, j).transcripts[version.key]);
  }

  /**
    The assumption is needed: from any approved transcript whose print is not cached, a request, an edit
    and a new approval inside one tick of the clock leave learners with the words as they were, and that is
    the current file exactly when the edit changed no word.
  */
  lemma TiedClockServesStaleWords(db: Database, key: Key, position: nat, text: string, reviewer: nat)
    requires Constrained(db) && IsApproved(db, key) && position in db.transcripts[key].segments
    requires Version(key, db.transcripts[key].updatedAt) !in db.cache
    ensures var after := InOneTick(db, key, position, text, reviewer);
            var t := db.transcripts[key];
            var version := Version(key, t.updatedAt);
            && IsApproved(after, key) && after.transcripts[key].updatedAt == t.updatedAt
            && position in after.transcripts[key].segments
            && after.transcripts[key].segments[position].text == text
            && Rendered(t).Some? && Get(after, key, Granted, None).1 == Vtt200(version, Rendered(t).value)
            && (Prints(after, version, Rendered(t).value) <==> text == t.segments[position].text)
  {
    hide Rendered, JobsUnique, Edit, Approve, InOrder, Words;
    var t := db.transcripts[key];
    assert RowConstrained(t);
    PrintingNeverFails(t);
    var served := Get(db, key, Granted, None).0;
    assert served.transcripts == db.transcripts;
    SignedInOneTick(served, key, position, text, reviewer);
    var after := InOneTick(db, key, position, text, reviewer);
    PrintsTellWords(t, after.transcripts[key]);
    OneWordChanged(t, after.transcripts[key], position, text);
  }

  lemma OneWordChanged(t: Transcript, u: Transcript, position: nat, text: string)
    requires position in t.segments && Corrected(t, u, position, text)
    ensures Words(t.segments) == Words(u.segments) <==> text == t.segments[position].text
  {
    assert Words(u.segments)[position].text == text && Words(t.segments)[position].text == t.segments[position].text;
    if text == t.segments[position].text {
      assert Words(u.segments) == Words(t.segments);
    }
  }

  /** A request, a correction of one cue and a new approval, all at the transcript's own timestamp. */
  function InOneTick(db: Database, key: Key, position: nat, text: string, reviewer: nat): Database
    requires key in db.transcripts
  {
    var tick := db.transcripts[key].updatedAt;
    var served := Get(db, key, Granted, None).0;
    Approve(Edit(served, key, position, true, Some(text), None, None, tick).0, key, true, reviewer, tick).0
  }

  /** A row whose text at one position was replaced, by a human's hand. */
  ghost predicate Corrected(t: Transcript, u: Transcript, position: nat, text: string)
    requires position in t.segments
  {
    u.segments == t.segments[position := t.segments[position].(text := text, isEdited := true)]
  }

  lemma SignedInOneTick(db: Database, key: Key, position: nat, text: string, reviewer: nat)
    requires Constrained(db) && IsApproved(db, key) && position in db.transcripts[key].segments
    ensures var tick := db.transcripts[key].updatedAt;
            var edited := Edit(db, key, position, true, Some(text), None, None, tick).0;
            var after := Approve(edited, key, true, reviewer, tick).0;
            && IsApproved(after, key) && after.cache == db.cache && after.transcripts[key].updatedAt == tick
            && RowConstrained(after.transcripts[key])
            && Corrected(db.transcripts[key], after.transcripts[key], position, text)
  {
    hide JobsUnique;
    var t := db.transcripts[key];
    assert RowConstrained(t);
    var was := t.segments[position];
    var edited := Edit(db, key, position, true, Some(text), None, None, t.updatedAt).0;
    assert edited == WithRow(db, key, EditedRow(t, position, Cue(was.startMs, was.endMs, text, true), t.updatedAt));
    assert position in edited.transcripts[key].segments;
  }
}
