/**
  A lesson's media and its subtitles together. The media row is replaced in place and keeps its key, and the
  transcripts of that key stay with it: whether the words a learner is served belong to the media now playing
  depends on what happened to both machines since the words were ordered.
*/
module LessonSubtitles {
  import opened Options
  import opened Transcripts
  import opened TranscriptRuns
  import MediaAssets

  datatype World = World(media: Option<MediaAssets.Asset>, db: Database)
  datatype Move = OnMedia(mediaOp: MediaAssets.Op) | OnWords(wordOp: Op)

  /** What the submission task finds when it looks the media up. */
  function MediaState(media: Option<MediaAssets.Asset>): Media {
    if media.None? then MediaGone else if media.value.status == MediaAssets.Ready then MediaReady else MediaNotReady
  }

  /** A step on the transcripts, as the state of the media has it; other lessons' media are not looked at. */
  function Informed(asset: nat, media: Option<MediaAssets.Asset>, op: Op): Op {
    if op.RequestOp? && op.key.asset == asset then op.(media := MediaState(media)) else op
  }

  ghost function Next(asset: nat, w: World, move: Move): World {
    match move
    case OnMedia(op) => w.(media := MediaAssets.Step(w.media, op).0)
    case OnWords(op) => w.(db := Step(w.db, Informed(asset, w.media, op)).0)
  }

  ghost function Play(asset: nat, moves: seq<Move>): World {
    if moves == [] then World(None, EMPTY) else
      var n := |moves| - 1;
      Next(asset, Play(asset, moves[..n]), moves[n])
  }

  // ----- each machine by itself -----

  const IDLE_MEDIA := MediaAssets.RetryProcessing(false)
  const IDLE_WORDS := RequestOp(Key(0, 0), MediaGone, 0, 0, Raised(""), 0)

  function MediaOps(moves: seq<Move>): (ops: seq<MediaAssets.Op>)
    ensures |ops| == |moves|
  {
    if moves == [] then [] else
      var n := |moves| - 1;
      MediaOps(moves[..n]) + [if moves[n].OnMedia? then moves[n].mediaOp else IDLE_MEDIA]
  }

  ghost function WordOps(asset: nat, moves: seq<Move>): (ops: seq<Op>)
    ensures |ops| == |moves|
  {
    if moves == [] then [] else
      var n := |moves| - 1;
      var op := if moves[n].OnWords? then Informed(asset, Play(asset, moves[..n]).media, moves[n].wordOp)
                else IDLE_WORDS;
      WordOps(asset, moves[..n]) + [op]
  }

  lemma IdleStepsDoNothing(media: Option<MediaAssets.Asset>, db: Database)
    ensures MediaAssets.Step(media, IDLE_MEDIA).0 == media && Step(db, IDLE_WORDS).0 == db
  {
  }

  lemma {:induction false} EachMachineByItself(asset: nat, moves: seq<Move>)
    ensures Play(asset, moves) == World(MediaAssets.Run(MediaOps(moves)), Run(WordOps(asset, moves)))
  {
    if moves != [] {
      hide Step, MediaAssets.Step, Informed;
      var n := |moves| - 1;
      EachMachineByItself(asset, moves[..n]);
      var media, words := MediaOps(moves), WordOps(asset, moves);
      assert media[..n] == MediaOps(moves[..n]) && words[..n] == WordOps(asset, moves[..n]);
      IdleStepsDoNothing(MediaAssets.Run(media[..n]), Run(words[..n]));
    }
  }

  lemma {:induction false} Prefixes(asset: nat, moves: seq<Move>, i: nat)
    requires i <= |moves|
    ensures MediaOps(moves[..i]) == MediaOps(moves)[..i] && WordOps(asset, moves[..i]) == WordOps(asset, moves)[..i]
    ensures i < |moves| ==>
              MediaOps(moves)[i] == (if moves[i].OnMedia? then moves[i].mediaOp else IDLE_MEDIA)
    ensures i < |moves| ==>
              WordOps(asset, moves)[i] ==
                (if moves[i].OnWords? then Informed(asset, Play(asset, moves[..i]).media, moves[i].wordOp)
                 else IDLE_WORDS)
    decreases |moves|
  {
    hide Informed, Play;
    if i == |moves| {
      assert moves[..i] == moves;
    } else {
      var n := |moves| - 1;
      Prefixes(asset, moves[..n], i);
      assert moves[..n][..i] == moves[..i];
    }
  }

  /** The world before move `i`, as the two runs have it. */
  lemma WorldAt(asset: nat, moves: seq<Move>, i: nat)
    requires i <= |moves|
    ensures Play(asset, moves[..i]).media == MediaAssets.Run(MediaOps(moves)[..i])
    ensures Play(asset, moves[..i]).db == At(WordOps(asset, moves), i)
  {
    hide Play, Run, MediaAssets.Run;
    EachMachineByItself(asset, moves[..i]);
    Prefixes(asset, moves, i);
  }

  // ----- whose words they are -----

  /** The provider names its assets: no hand-off without an id, and no id twice. */
  ghost predicate AssetsNamed(ops: seq<MediaAssets.Op>) {
    forall i :: 0 <= i < |ops| && MediaAssets.AnswerAt(ops, i) == MediaAssets.HandedOver ==> NamedFirstHere(ops, i)
  }

  ghost predicate NamedFirstHere(ops: seq<MediaAssets.Op>, i: nat)
    requires i < |ops|
  {
    && ops[i].Process? && ops[i].handoff.Created? && ops[i].handoff.assetId != ""
    && forall j :: 0 <= j < i && ops[j].Process? && ops[j].handoff.Created?
                   && MediaAssets.AnswerAt(ops, j) == MediaAssets.HandedOver ==>
         ops[j].handoff.assetId != ops[i].handoff.assetId
  }

  /** A new upload for the lesson is granted. */
  ghost predicate UploadGranted(asset: nat, moves: seq<Move>, k: nat)
    requires k < |moves|
  {
    && moves[k].OnMedia? && moves[k].mediaOp.RequestUpload?
    && MediaAssets.Step(Play(asset, moves[..k]).media, moves[k].mediaOp).1 == MediaAssets.Saved
  }

  lemma GrantedIsRenewed(asset: nat, moves: seq<Move>, k: nat)
    requires k < |moves|
    ensures UploadGranted(asset, moves, k) <==> MediaAssets.Renewed(MediaOps(moves), k)
  {
    hide Play, MediaAssets.Run, MediaAssets.Step;
    WorldAt(asset, moves, k);
    Prefixes(asset, moves, k);
  }

  /** Two moments at which the media is ready: it is the same media exactly when no upload was granted between. */
  lemma SameMediaExactly(ops: seq<MediaAssets.Op>, s: nat, n: nat)
    requires s < n <= |ops| && AssetsNamed(ops) && ops[s] == IDLE_MEDIA
    requires MediaAssets.Run(ops[..s]).Some? && MediaAssets.Run(ops[..s]).value.status == MediaAssets.Ready
    requires MediaAssets.Run(ops[..n]).Some? && MediaAssets.Run(ops[..n]).value.status == MediaAssets.Ready
    ensures MediaAssets.Run(ops[..s]).value.assetId == MediaAssets.Run(ops[..n]).value.assetId
            <==> forall k :: s < k < n ==> !MediaAssets.Renewed(ops, k)
  {
    hide MediaAssets.Run, MediaAssets.Step, MediaAssets.HasId;
    var g := MediaAssets.PlayableCarriesItsHandoff(ops, s);
    var h := MediaAssets.PlayableCarriesItsHandoff(ops, n);
    assert NamedFirstHere(ops, g) && NamedFirstHere(ops, h);
    IdleIsNoHandoff(ops, s);
    if forall k :: s < k < n ==> !MediaAssets.Renewed(ops, k) {
      if h > s {
        ReadyHasId(ops, s);
        MediaAssets.IdStaysFor(ops, s, h);
        MediaAssets.IdStays(MediaAssets.Run(ops[..h]), ops[h]);
      }
      assert h < s;
      assert h <= g && g <= h;
    } else {
      var k :| s < k < n && MediaAssets.Renewed(ops, k);
      assert h >= k;
      MediaAssets.HandoffRecordsId(MediaAssets.Run(ops[..h]), ops[h]);
      assert g < h;
    }
  }

  lemma IdleIsNoHandoff(ops: seq<MediaAssets.Op>, s: nat)
    requires s < |ops| && ops[s] == IDLE_MEDIA
    ensures MediaAssets.AnswerAt(ops, s) != MediaAssets.HandedOver && !MediaAssets.Renewed(ops, s)
  {
  }

  lemma ReadyHasId(ops: seq<MediaAssets.Op>, n: nat)
    requires n <= |ops|
    requires MediaAssets.Run(ops[..n]).Some? && MediaAssets.Run(ops[..n]).value.status == MediaAssets.Ready
    ensures MediaAssets.HasId(MediaAssets.Run(ops[..n]))
  {
    hide MediaAssets.Run;
    MediaAssets.EveryRunIsSound(ops[..n]);
  }

  /**
    Approved subtitles of a lesson whose media is ready: their job was submitted at some move `s`, for media
    that was ready then. That media is the one now playing exactly when no new upload has been granted since.
  */
  lemma SubtitlesBelongExactly(asset: nat, moves: seq<Move>, n: nat, key: Key) returns (s: nat)
    requires n <= |moves| && key.asset == asset && AssetsNamed(MediaOps(moves))
    requires MediaState(Play(asset, moves[..n]).media).MediaReady? && IsApproved(Play(asset, moves[..n]).db, key)
    ensures s < n && moves[s].OnWords? && moves[s].wordOp.RequestOp? && moves[s].wordOp.submission.Answered?
    ensures var before, now := Play(asset, moves[..s]), Play(asset, moves[..n]);
            && SubmitsAt(before.db, Informed(asset, before.media, moves[s].wordOp), key)
            && now.db.transcripts[key].jobId == Some(moves[s].wordOp.submission.jobId)
            && MediaState(before.media).MediaReady?
            && (before.media.value.assetId == now.media.value.assetId <==>
                forall k :: s < k < n ==> !UploadGranted(asset, moves, k))
  {
    hide Play, Run, Step, MediaAssets.Run, MediaAssets.Step, Sound, UploadGranted, MediaAssets.Renewed;
    var words, media := WordOps(asset, moves), MediaOps(moves);
    WorldAt(asset, moves, n);
    ApprovedHasJob(words, n, key);
    s := LastSubmission(words, n, key);
    WorldAt(asset, moves, s);
    Prefixes(asset, moves, s);
    IdleSubmitsNothing(At(words, s), key);
    SameMediaExactly(media, s, n);
    forall k | s < k < n
      ensures UploadGranted(asset, moves, k) <==> MediaAssets.Renewed(media, k)
    {
      GrantedIsRenewed(asset, moves, k);
    }
  }

  lemma ApprovedHasJob(ops: seq<Op>, n: nat, key: Key)
    requires n <= |ops| && IsApproved(At(ops, n), key)
    ensures At(ops, n).transcripts[key].jobId.Some?
  {
    hide Run, Constrained;
    EveryRunIsSound(ops[..n]);
    assert RowSound(At(ops, n).transcripts[key], At(ops, n).events);
  }

  lemma IdleSubmitsNothing(db: Database, key: Key)
    ensures !SubmitsAt(db, IDLE_WORDS, key)
  {
  }

  /**
    And nothing orders new words for the new media: once a job with a name is on the row, every later
    submission, whatever upload and transcode came between, is answered without one.
  */
  lemma NewMediaGetsNoWords(asset: nat, moves: seq<Move>, i: nat, j: nat, op: Op)
    requires i <= j <= |moves| && op.RequestOp? && op.key in Play(asset, moves[..i]).db.transcripts
    requires HasJob(Play(asset, moves[..i]).db.transcripts[op.key])
    ensures var now := Play(asset, moves[..j]);
            && op.key in now.db.transcripts
            && now.db.transcripts[op.key].jobId == Play(asset, moves[..i]).db.transcripts[op.key].jobId
            && Step(now.db, Informed(asset, now.media, op)).1 in {Gone, NotReady, AlreadySubmitted}
  {
    hide Play, Run, JobTaken, FailedRow;
    WorldAt(asset, moves, i);
    WorldAt(asset, moves, j);
    OneJobOneOutcome(WordOps(asset, moves), i, j, op.key);
  }
}
