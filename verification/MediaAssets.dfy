/**
  One lesson's media: upload, verification, the hand-off to the video provider under retries and
  redelivery, the provider's webhooks, and the retry button.
*/
module MediaAssets {
  import opened Backoff
  import opened Options
  import opened Rendering
  import Decimal
  import Entitlements

  datatype Status = Pending | Uploaded | Transcoding | Ready | Failed

  datatype Asset = Asset(
    status: Status,
    provider: string,
    assetId: string,
    playbackId: string,
    errorMessage: string,
    retryCount: nat,
    bytes: nat,
    duration: Option<nat>
  )

  /** The name the configured provider goes by. */
  const PROVIDER := "fake"

  /** What is found where the browser said it uploaded. */
  datatype Found = Nothing | TooLarge(size: nat) | WrongType(size: nat) | Good(size: nat)

  /** What handing the master to the provider gives. */
  datatype Handoff = Raised(kind: string, message: string) | Errored | Created(assetId: string, playbackId: string)

  datatype Report = ReportReady(duration: Option<nat>) | ReportErrored | ReportOther

  datatype Answer =
    | NotYours | NotAllowed | Missing | Rejected | Saved
    | AlreadyProcessed | NotUploaded | DeadLettered | ProviderRejected | HandedOver | RetryIn(seconds: nat)
    | UnknownAsset | Applied | Ignored
    | IntegrityError

  datatype Op =
    | RequestUpload(permitted: bool)
    | CompleteUpload(permitted: bool, found: Found)
    | Process(retries: nat, maxRetries: nat, handoff: Handoff)
    | Webhook(assetId: string, report: Report)
    | RetryProcessing(permitted: bool)

  predicate Replaceable(status: Status) {
    status == Pending || status == Uploaded || status == Failed
  }

  function FailedAsset(a: Asset, message: string, attempts: nat): Asset {
    a.(status := Failed, errorMessage := Truncate(message), retryCount := attempts)
  }

  /** `provider_ids_are_not_urls`. */
  predicate OpaqueIds(assetId: string, playbackId: string) {
    !Contains(assetId, "://") && !Contains(playbackId, "://")
  }

  /** A row awaiting an upload; a replaced row keeps only the duration it had. */
  function Awaiting(duration: Option<nat>): Asset {
    Asset(Pending, "", "", "", "", 0, 1, duration)
  }

  function ProcessStep(a: Asset, retries: nat, maxRetries: nat, handoff: Handoff): (Asset, Answer) {
    if a.assetId != "" then (a, AlreadyProcessed)
    else if a.status != Uploaded then (a, NotUploaded)
    else match handoff
      case Raised(kind, message) =>
        if retries + 1 > maxRetries then (FailedAsset(a, kind + ": " + message, retries), DeadLettered)
        else (a.(retryCount := retries + 1), RetryIn(RetryCountdown(retries + 1)))
      case Errored => (FailedAsset(a, "The provider rejected the file.", retries), ProviderRejected)
      case Created(assetId, playbackId) =>
        if !OpaqueIds(assetId, playbackId) then (a, IntegrityError)
        else (a.(provider := PROVIDER, assetId := assetId, playbackId := playbackId,
                 status := Transcoding, errorMessage := ""), HandedOver)
  }

  function WebhookStep(a: Asset, assetId: string, report: Report): (Asset, Answer) {
    if a.provider != PROVIDER || a.assetId != assetId then (a, UnknownAsset)
    else match report
      case ReportReady(duration) =>
        if a.assetId == "" || a.playbackId == "" then (a, IntegrityError)
        else (a.(status := Ready, duration := duration, errorMessage := ""), Applied)
      case ReportErrored => (FailedAsset(a, "The provider failed to process this file.", a.retryCount), Applied)
      case ReportOther => (a, Ignored)
  }

  function TooLargeMessage(size: nat): string {
    "File is " + Decimal.Digits(size) + " bytes, over the limit."
  }

  function CompleteStep(a: Asset, permitted: bool, found: Found): (Asset, Answer) {
    if !permitted then (a, NotYours)
    else if a.status != Pending then (a, NotAllowed)
    else match found
      case Nothing => (a, Missing)
      case TooLarge(size) => (a.(status := Failed, errorMessage := TooLargeMessage(size)), Rejected)
      case WrongType(_) =>
        (a.(status := Failed, errorMessage := "File contents do not match the declared type."), Rejected)
      case Good(size) => if size == 0 then (a, IntegrityError) else (a.(bytes := size, status := Uploaded), Saved)
  }

  /** One step on the lesson's asset, which does not exist before the first upload is requested. */
  function Step(asset: Option<Asset>, op: Op): (Option<Asset>, Answer) {
    match op
    case RequestUpload(permitted) =>
      if !permitted then (asset, NotYours)
      else if asset.Some? && !Replaceable(asset.value.status) then (asset, NotAllowed)
      else (Some(Awaiting(if asset.Some? then asset.value.duration else None)), Saved)
    case _ =>
      if asset.None? then (asset, Missing) else
        var (after, answer) := OnAsset(asset.value, op);
        (Some(after), answer)
  }

  function OnAsset(a: Asset, op: Op): (Asset, Answer) {
    match op
    case RequestUpload(_) => (a, NotAllowed)
    case CompleteUpload(permitted, found) => CompleteStep(a, permitted, found)
    case Process(retries, maxRetries, handoff) => ProcessStep(a, retries, maxRetries, handoff)
    case Webhook(assetId, report) => WebhookStep(a, assetId, report)
    case RetryProcessing(permitted) =>
      if !permitted then (a, NotYours)
      else if a.status != Failed then (a, NotAllowed)
      else (a.(status := Uploaded, errorMessage := "", retryCount := 0), Saved)
  }

  function Run(ops: seq<Op>): Option<Asset> {
    if ops == [] then None else Step(Run(ops[..|ops| - 1]), ops[|ops| - 1]).0
  }

  function AnswerAt(ops: seq<Op>, i: nat): Answer
    requires i < |ops|
  {
    Step(Run(ops[..i]), ops[i]).1
  }

  // ----- the services and tasks, writing the row in place -----

  class MediaRow {
    var asset: Option<Asset>

    constructor ()
      ensures asset == Run([])
    {
      asset := None;
    }

    method Request(permitted: bool) returns (answer: Answer)
      modifies this
      ensures (asset, answer) == Step(old(asset), RequestUpload(permitted))
    {
      if !permitted {
        return NotYours;
      }
      if asset.Some? && !Replaceable(asset.value.status) {
        return NotAllowed;
      }
      var row := if asset.Some? then asset.value else Awaiting(None);
      row := row.(bytes := 1);
      row := row.(provider := "", assetId := "", playbackId := "");
      row := row.(status := Pending, errorMessage := "", retryCount := 0);
      asset := Some(row);
      answer := Saved;
    }

    method Complete(permitted: bool, found: Found) returns (answer: Answer)
      modifies this
      ensures (asset, answer) == Step(old(asset), CompleteUpload(permitted, found))
    {
      if asset.None? {
        return Missing;
      }
      var row := asset.value;
      if !permitted {
        return NotYours;
      }
      if row.status != Pending {
        return NotAllowed;
      }
      match found {
        case Nothing =>
          return Missing;
        case TooLarge(size) =>
          asset := Some(row.(status := Failed, errorMessage := TooLargeMessage(size)));
          return Rejected;
        case WrongType(_) =>
          asset := Some(row.(status := Failed, errorMessage := "File contents do not match the declared type."));
          return Rejected;
        case Good(size) =>
          if size == 0 {
            return IntegrityError;
          }
          row := row.(bytes := size);
          row := row.(status := Uploaded);
          asset := Some(row);
          return Saved;
      }
    }

    method ProcessMediaAsset(retries: nat, maxRetries: nat, handoff: Handoff) returns (answer: Answer)
      modifies this
      ensures (asset, answer) == Step(old(asset), Process(retries, maxRetries, handoff))
    {
      hide Contains, RetryCountdown;
      if asset.None? {
        return Missing;
      }
      var row := asset.value;
      if row.assetId != "" {
        return AlreadyProcessed;
      }
      if row.status != Uploaded {
        return NotUploaded;
      }
      match handoff {
        case Raised(kind, message) =>
          var attempts := retries + 1;
          if attempts > maxRetries {
            asset := Some(FailedAsset(row, kind + ": " + message, attempts - 1));
            return DeadLettered;
          }
          asset := Some(row.(retryCount := attempts));
          return RetryIn(RetryCountdown(attempts));
        case Errored =>
          asset := Some(FailedAsset(row, "The provider rejected the file.", retries));
          return ProviderRejected;
        case Created(assetId, playbackId) =>
          if !OpaqueIds(assetId, playbackId) {
            return IntegrityError;
          }
          row := row.(provider := PROVIDER, assetId := assetId, playbackId := playbackId);
          asset := Some(row.(status := Transcoding, errorMessage := ""));
          return HandedOver;
      }
    }

    method ApplyWebhook(assetId: string, report: Report) returns (answer: Answer)
      modifies this
      ensures (asset, answer) == Step(old(asset), Webhook(assetId, report))
    {
      if asset.None? {
        return Missing;
      }
      var row := asset.value;
      if row.provider != PROVIDER || row.assetId != assetId {
        return UnknownAsset;
      }
      match report {
        case ReportReady(duration) =>
          if row.assetId == "" || row.playbackId == "" {
            return IntegrityError;
          }
          asset := Some(row.(status := Ready, duration := duration, errorMessage := ""));
          return Applied;
        case ReportErrored =>
          asset := Some(FailedAsset(row, "The provider failed to process this file.", row.retryCount));
          return Applied;
        case ReportOther =>
          return Ignored;
      }
    }

    method Retry(permitted: bool) returns (answer: Answer)
      modifies this
      ensures (asset, answer) == Step(old(asset), RetryProcessing(permitted))
    {
      if asset.None? {
        return Missing;
      }
      if !permitted {
        return NotYours;
      }
      if asset.value.status != Failed {
        return NotAllowed;
      }
      asset := Some(asset.value.(status := Uploaded, errorMessage := "", retryCount := 0));
      answer := Saved;
    }
  }

  /** A replacement is as good as a first upload exactly when no duration was on record. */
  lemma ReplacementStartsCleanExactly(a: Asset)
    requires Replaceable(a.status)
    ensures Step(Some(a), RequestUpload(true)).1 == Saved
    ensures Step(Some(a), RequestUpload(true)).0 == Step(None, RequestUpload(true)).0 <==> a.duration.None?
  {
  }

  // ----- every run -----

  predicate Sound(asset: Option<Asset>) {
    asset.Some? ==>
      var a := asset.value;
      && (a.status == Ready ==> a.provider == PROVIDER && a.assetId != "" && a.playbackId != "")
      && (a.status == Transcoding ==> a.provider == PROVIDER)
      && (a.status == Failed ==> a.errorMessage != "")
      && (a.status == Pending ==> a.assetId == "" && a.provider == "")
      && a.bytes > 0
      && !Contains(a.assetId, "://") && !Contains(a.playbackId, "://")
  }

  lemma StepKeepsSound(asset: Option<Asset>, op: Op)
    requires Sound(asset)
    ensures Sound(Step(asset, op).0)
  {
    assert !Contains("", "://");
    hide Contains, RetryCountdown;
  }

  /** A playable asset has both provider ids, a failed one says why, and no id is an address. */
  lemma {:induction false} EveryRunIsSound(ops: seq<Op>)
    ensures Sound(Run(ops))
  {
    hide Step;
    if ops != [] {
      EveryRunIsSound(ops[..|ops| - 1]);
      StepKeepsSound(Run(ops[..|ops| - 1]), ops[|ops| - 1]);
    }
  }

  datatype Playback = Denied(decision: Entitlements.Decision) | NotPlayable | Token(playbackId: string)

  /** `issue_playback_token`: the resolver's decision first, then the asset, and only then a token. */
  function IssuePlaybackToken(decision: Entitlements.Decision, asset: Option<Asset>): Playback {
    if !decision.allowed then Denied(decision)
    else if asset.None? || asset.value.status != Ready then NotPlayable
    else Token(asset.value.playbackId)
  }

  /**
    In every run: who can hold a token for a lesson's media, and when. With every grant begun it takes an
    asset that is ready and a caller whom the resolver lets in; and the token names something to play.
  */
  lemma {:induction false} TokensArePlayable(ops: seq<Op>, caller: Entitlements.Caller, lesson: Entitlements.Lesson,
                                             rows: seq<Entitlements.Subscription>,
                                             overrides: seq<Entitlements.Override>,
                                             now: Entitlements.Time, grace: nat)
    requires forall i :: 0 <= i < |overrides| ==> overrides[i].startsAt <= now
    ensures var decision := Entitlements.ResolveAccess(caller, lesson, rows, overrides, now, grace);
            var horizon := Entitlements.Later(Entitlements.RowsHorizon(rows, grace),
                                              Entitlements.OverridesHorizon(overrides));
            var playback := IssuePlaybackToken(decision, Run(ops));
            && (playback.Token? <==>
                && Run(ops).Some? && Run(ops).value.status == Ready
                && (lesson.isPreview ||
                    (caller.SignedIn? && (lesson.instructor == caller.id || caller.administrator ||
                                          Entitlements.Before(now, horizon)))))
            && (playback.Token? ==> playback.playbackId == Run(ops).value.playbackId != "")
            && (playback.Denied? <==> !decision.allowed)
  {
    hide Run;
    hide Entitlements.ResolveAccess, Entitlements.RowsHorizon, Entitlements.OverridesHorizon;
    EveryRunIsSound(ops);
    Entitlements.WhoMaySeeALesson(caller, lesson, rows, overrides, now, grace);
  }

  // ----- which steps are accepted, and what they leave -----

  /** An upload is granted to those who may manage the lesson, over nothing, or over media not with the provider. */
  lemma UploadGrantedExactly(asset: Option<Asset>, permitted: bool)
    ensures var (after, answer) := Step(asset, RequestUpload(permitted));
            && (answer == Saved <==>
                  permitted && (asset.Some? ==> asset.value.status in {Pending, Uploaded, Failed}))
            && (answer == Saved ==>
                  && after.Some? && after.value.status == Pending
                  && after.value.retryCount == 0 && after.value.bytes == 1
                  && after.value.assetId == after.value.playbackId == after.value.provider
                     == after.value.errorMessage == "")
            && (answer != Saved ==> after == asset)
  {
  }

  /** An upload is verified exactly when what was found there is whole and of its type; a rejection says why. */
  lemma UploadVerifiedExactly(a: Asset, permitted: bool, found: Found)
    ensures var (after, answer) := Step(Some(a), CompleteUpload(permitted, found));
            && after.Some?
            && (answer == Saved <==> permitted && a.status == Pending && found.Good? && found.size > 0)
            && (answer == Saved ==> after.value == a.(status := Uploaded, bytes := found.size))
            && (answer == Rejected <==> permitted && a.status == Pending && (found.TooLarge? || found.WrongType?))
            && (answer == Rejected ==> after.value.errorMessage != "")
            && (answer == Rejected ==> after.value == a.(status := Failed, errorMessage := after.value.errorMessage))
            && (answer != Saved && answer != Rejected ==> after == Some(a))
  {
    hide Contains;
  }

  /** Only an uploaded file without a provider id is handed over, and the row then awaits the provider's report. */
  lemma HandedOverExactly(asset: Option<Asset>, op: Op)
    ensures Step(asset, op).1 == HandedOver <==>
            && op.Process? && op.handoff.Created?
            && !Contains(op.handoff.assetId, "://") && !Contains(op.handoff.playbackId, "://")
            && asset.Some? && asset.value.assetId == "" && asset.value.status == Uploaded
    ensures Step(asset, op).1 == HandedOver ==>
              Step(asset, op).0 == Some(asset.value.(
                provider := PROVIDER, assetId := op.handoff.assetId, playbackId := op.handoff.playbackId,
                status := Transcoding, errorMessage := ""))
    ensures op.Process? && Step(asset, op).1 == ProviderRejected ==>
              asset.Some? && Step(asset, op).0.Some? &&
              var row := Step(asset, op).0.value;
              row.errorMessage != "" &&
              row == asset.value.(status := Failed, errorMessage := row.errorMessage, retryCount := op.retries)
    ensures Waiting(asset) && op.Process? && op.handoff.Errored? ==> Step(asset, op).1 == ProviderRejected
  {
    hide Contains, RetryCountdown;
  }

  /** A report is for the asset it names, and the row takes from it whether it can be played, and for how long. */
  lemma ReportAppliesExactly(a: Asset, assetId: string, report: Report)
    ensures var (after, answer) := Step(Some(a), Webhook(assetId, report));
            var named := a.provider == PROVIDER && a.assetId == assetId;
            && (answer == UnknownAsset <==> !named)
            && (answer == Applied <==>
                  named && (report.ReportErrored? || (report.ReportReady? && a.assetId != "" && a.playbackId != "")))
            && (answer == Applied && report.ReportReady? ==>
                  after == Some(a.(status := Ready, duration := report.duration, errorMessage := "")))
            && (answer == Applied && report.ReportErrored? ==>
                  after.Some? && after.value.errorMessage != "" &&
                  after.value == a.(status := Failed, errorMessage := after.value.errorMessage))
            && (answer != Applied ==> after == Some(a))
  {
  }

  lemma RetryGrantedExactly(a: Asset, permitted: bool)
    ensures Step(Some(a), RetryProcessing(permitted)).1 == Saved <==> permitted && a.status == Failed
    ensures Step(Some(a), RetryProcessing(permitted)).1 != Saved ==>
              Step(Some(a), RetryProcessing(permitted)).0 == Some(a)
  {
  }

  /** A stranger is answered the same whatever state the media is in: ownership is asked first. */
  lemma StrangersLearnNothing(a: Asset, op: Op)
    requires (op.RequestUpload? || op.CompleteUpload? || op.RetryProcessing?) && !op.permitted
    ensures Step(Some(a), op) == (Some(a), NotYours)
  {
  }

  /** And which refusal the others get. */
  lemma RefusalsSayWhy(a: Asset, op: Op)
    requires (op.RequestUpload? || op.CompleteUpload? || op.RetryProcessing?) && op.permitted
    requires Step(Some(a), op).1 != Saved && Step(Some(a), op).1 != Rejected
    ensures Step(Some(a), op).1 ==
            if !op.CompleteUpload? || a.status != Pending then NotAllowed
            else if op.found.Nothing? then Missing
            else IntegrityError
  {
  }

  /** A delivery that neither hands over nor fails says why, and an unfinished one leaves only its count. */
  lemma NotHandedOverBecause(a: Asset, op: Op)
    requires op.Process?
    ensures var (after, answer) := Step(Some(a), op);
            && (answer == AlreadyProcessed <==> a.assetId != "")
            && (answer == NotUploaded <==> a.assetId == "" && a.status != Uploaded)
            && (answer == IntegrityError <==>
                  a.assetId == "" && a.status == Uploaded && op.handoff.Created?
                  && !OpaqueIds(op.handoff.assetId, op.handoff.playbackId))
            && (answer in {AlreadyProcessed, NotUploaded, IntegrityError} ==> after == Some(a))
            && (answer.RetryIn? ==> after == Some(a.(retryCount := op.retries + 1)))
            && (answer.RetryIn? <==>
                  a.assetId == "" && a.status == Uploaded && op.handoff.Raised? && op.retries < op.maxRetries)
            && (answer == DeadLettered ==>
                  after == Some(FailedAsset(a, op.handoff.kind + ": " + op.handoff.message, op.retries)))
  {
    hide Contains, RetryCountdown, Truncate;
  }

  /** An error column holds the first two thousand characters of what went wrong. */
  lemma FailureSaysWhy(a: Asset, message: string, attempts: nat)
    ensures var row := FailedAsset(a, message, attempts);
            && row.errorMessage <= message && |row.errorMessage| == Min2000(|message|)
            && row == a.(status := Failed, errorMessage := row.errorMessage, retryCount := attempts)
  {
  }

  function Min2000(n: nat): nat {
    if n < 2000 then n else 2000
  }

  // ----- one hand-off -----

  predicate HasId(asset: Option<Asset>) {
    asset.Some? && asset.value.assetId != ""
  }

  /** An id once recorded stays until an upload is requested anew, and while it stays nothing is handed over. */
  lemma IdStays(asset: Option<Asset>, op: Op)
    requires HasId(asset)
    ensures Step(asset, op).1 != HandedOver
    ensures !(op.RequestUpload? && Step(asset, op).1 == Saved) ==>
              HasId(Step(asset, op).0) && Step(asset, op).0.value.assetId == asset.value.assetId
  {
    hide Contains, RetryCountdown;
  }

  lemma RunNext(ops: seq<Op>, i: nat)
    requires i < |ops|
    ensures Run(ops[..i + 1]) == Step(Run(ops[..i]), ops[i]).0
  {
    hide Step;
    assert ops[..i + 1][..i] == ops[..i];
  }

  ghost predicate Renewed(ops: seq<Op>, k: nat)
    requires k < |ops|
  {
    ops[k].RequestUpload? && AnswerAt(ops, k) == Saved
  }

  lemma {:induction false} IdStaysFor(ops: seq<Op>, i: nat, j: nat)
    requires i <= j <= |ops| && HasId(Run(ops[..i]))
    requires forall k :: i <= k < j ==> !Renewed(ops, k)
    ensures HasId(Run(ops[..j]))
    decreases j
  {
    hide Step, Run, HasId;
    if i < j {
      IdStaysFor(ops, i, j - 1);
      RunNext(ops, j - 1);
      assert !Renewed(ops, j - 1);
      IdStays(Run(ops[..j - 1]), ops[j - 1]);
    }
  }

  /**
    Between two hand-offs somebody requested a new upload: no redelivery, retry or click pays for a second
    transcode of the same master. Only a provider that gave its asset no name makes an exception.
  */
  lemma AtMostOneHandoff(ops: seq<Op>, i: nat, j: nat)
    requires i < j < |ops|
    requires AnswerAt(ops, i) == HandedOver && AnswerAt(ops, j) == HandedOver
    ensures ops[i].Process? && ops[i].handoff.Created?
    ensures ops[i].handoff.assetId == "" || exists k :: i < k < j && Renewed(ops, k)
  {
    hide Run;
    RunNext(ops, i);
    HandoffRecordsId(Run(ops[..i]), ops[i]);
    if ops[i].handoff.assetId != "" && forall k :: i < k < j ==> !Renewed(ops, k) {
      hide Step;
      IdStaysFor(ops, i + 1, j);
      IdStays(Run(ops[..j]), ops[j]);
    }
  }

  lemma HandoffRecordsId(asset: Option<Asset>, op: Op)
    requires Step(asset, op).1 == HandedOver
    ensures op.Process? && op.handoff.Created? && Step(asset, op).0.Some?
    ensures Step(asset, op).0.value.assetId == op.handoff.assetId
  {
    hide Contains, RetryCountdown;
  }

  /** The row carries what this hand-off recorded. */
  predicate Carries(asset: Option<Asset>, op: Op) {
    && asset.Some? && op.Process? && op.handoff.Created?
    && asset.value.provider == PROVIDER
    && asset.value.assetId == op.handoff.assetId && asset.value.playbackId == op.handoff.playbackId
  }

  predicate WithProvider(asset: Option<Asset>) {
    asset.Some? && asset.value.provider == PROVIDER
  }

  /** A row gets its provider's ids from a hand-off, and loses them to a new upload only. */
  lemma IdsComeFromHandoffs(asset: Option<Asset>, op: Op)
    requires WithProvider(Step(asset, op).0)
    ensures if Step(asset, op).1 == HandedOver then Carries(Step(asset, op).0, op)
            else WithProvider(asset) && Step(asset, op).0.value.assetId == asset.value.assetId
                 && Step(asset, op).0.value.playbackId == asset.value.playbackId
                 && !(op.RequestUpload? && Step(asset, op).1 == Saved)
  {
    hide Contains, RetryCountdown;
  }

  /** Nothing since step `h` granted an upload or recorded another hand-off. */
  ghost predicate Undisturbed(ops: seq<Op>, h: nat, n: nat)
    requires n <= |ops|
  {
    forall k :: h < k < n ==> !Renewed(ops, k) && AnswerAt(ops, k) != HandedOver
  }

  lemma {:induction false} LastHandoff(ops: seq<Op>, n: nat) returns (h: nat)
    requires n <= |ops| && WithProvider(Run(ops[..n]))
    ensures h < n && AnswerAt(ops, h) == HandedOver && Carries(Run(ops[..n]), ops[h]) && Undisturbed(ops, h, n)
    decreases n
  {
    hide Step, WithProvider, Carries;
    if n == 0 {
      assert ops[..0] == [];
      NothingHasProvider();
    } else {
      RunNext(ops, n - 1);
      IdsComeFromHandoffs(Run(ops[..n - 1]), ops[n - 1]);
      if AnswerAt(ops, n - 1) == HandedOver {
        h := n - 1;
      } else {
        h := LastHandoff(ops, n - 1);
        SameIdsCarry(Run(ops[..n - 1]), Run(ops[..n]), ops[h]);
      }
    }
  }

  lemma NothingHasProvider()
    ensures !WithProvider(Run([]))
  {
  }

  lemma SameIdsCarry(before: Option<Asset>, after: Option<Asset>, handoff: Op)
    requires Carries(before, handoff) && WithProvider(after)
    requires after.value.assetId == before.value.assetId && after.value.playbackId == before.value.playbackId
    ensures Carries(after, handoff)
  {
  }

  /**
    In every run a row that is being transcoded, or ready to play, carries the ids of one recorded hand-off,
    the last, and no upload has been granted since it.
  */
  lemma PlayableCarriesItsHandoff(ops: seq<Op>, n: nat) returns (h: nat)
    requires n <= |ops| && Run(ops[..n]).Some? && Run(ops[..n]).value.status in {Transcoding, Ready}
    ensures h < n && AnswerAt(ops, h) == HandedOver && Carries(Run(ops[..n]), ops[h]) && Undisturbed(ops, h, n)
  {
    hide Step, Run;
    EveryRunIsSound(ops[..n]);
    h := LastHandoff(ops, n);
  }

  /** With an empty id the guard sees nothing: a failure report and one click hand the master over again. */
  lemma EmptyIdIsHandedOverAgain(a: Asset, playbackId: string)
    requires a.status == Transcoding && a.provider == PROVIDER && a.assetId == "" && !Contains(playbackId, "://")
    ensures var failed := Step(Some(a), Webhook("", ReportErrored)).0;
            var retried := Step(failed, RetryProcessing(true)).0;
            Step(retried, Process(0, 3, Created("", playbackId))).1 == HandedOver
  {
    assert !Contains("", "://");
  }

  /** The asset after more steps. */
  function RunFrom(asset: Option<Asset>, ops: seq<Op>): Option<Asset> {
    if ops == [] then asset else Step(RunFrom(asset, ops[..|ops| - 1]), ops[|ops| - 1]).0
  }

  /** Everything but a new upload and a report from the provider on this very asset. */
  predicate Leaves(op: Op, assetId: string) {
    !op.RequestUpload? && (op.Webhook? ==> op.assetId != assetId)
  }

  /**
    A retry after the hand-off goes nowhere: the row says it is uploaded, its old id is still there, and no
    number of deliveries, clicks, confirmations or reports on other assets changes it again.
  */
  lemma {:induction false} RetryAfterHandoffIsStuck(a: Asset, ops: seq<Op>)
    requires a.status == Failed && a.assetId != ""
    requires forall i :: 0 <= i < |ops| ==> Leaves(ops[i], a.assetId)
    ensures var retried := Step(Some(a), RetryProcessing(true)).0;
            && retried == Some(a.(status := Uploaded, errorMessage := "", retryCount := 0))
            && RunFrom(retried, ops) == retried
  {
    if ops != [] {
      var n := |ops| - 1;
      RetryAfterHandoffIsStuck(a, ops[..n]);
      assert Leaves(ops[n], a.assetId);
    }
  }

  /** The row as the retry button leaves it. */
  function Retried(a: Asset): Option<Asset> {
    Step(Some(a), RetryProcessing(true)).0
  }

  /** The next delivery after a retry hands the master over exactly when no provider id is on the row. */
  lemma RetryWorksExactly(a: Asset, maxRetries: nat, assetId: string, playbackId: string)
    requires a.status == Failed && OpaqueIds(assetId, playbackId)
    ensures Step(Retried(a), Process(0, maxRetries, Created(assetId, playbackId))).1 == HandedOver <==> a.assetId == ""
  {
    hide Contains;
  }

  ghost predicate AllLeave(ops: seq<Op>, assetId: string) {
    forall i :: 0 <= i < |ops| ==> Leaves(ops[i], assetId)
  }

  /** Some run after the retry ends in a hand-off. */
  ghost predicate HandsOver(a: Asset, ops: seq<Op>) {
    ops != [] && AllLeave(ops, a.assetId) &&
    Step(RunFrom(Retried(a), ops[..|ops| - 1]), ops[|ops| - 1]).1 == HandedOver
  }

  /**
    Over every run of deliveries, clicks, confirmations and other assets' reports: a retry can still lead to a
    hand-off exactly when the row has no provider id; with one, nothing in the run changes the row at all.
  */
  lemma RetryCanSucceedExactly(a: Asset)
    requires a.status == Failed
    ensures (exists ops :: HandsOver(a, ops)) <==> a.assetId == ""
    ensures (forall ops :: AllLeave(ops, a.assetId) ==> RunFrom(Retried(a), ops) == Retried(a)) <==> a.assetId != ""
  {
    hide Step, RunFrom;
    if a.assetId == "" {
      FreshRetryHandsOver(a);
    } else {
      forall ops | AllLeave(ops, a.assetId)
        ensures RunFrom(Retried(a), ops) == Retried(a)
      {
        RetryAfterHandoffIsStuck(a, ops);
      }
      forall ops | HandsOver(a, ops)
        ensures false
      {
        var n := |ops| - 1;
        assert AllLeave(ops[..n], a.assetId);
        StuckHandsNothingOver(a, ops[n]);
      }
    }
  }

  lemma StuckHandsNothingOver(a: Asset, op: Op)
    requires a.status == Failed && a.assetId != "" && Leaves(op, a.assetId)
    ensures Step(Retried(a), op).1 != HandedOver
  {
    hide Contains;
  }

  lemma FreshRetryHandsOver(a: Asset)
    requires a.status == Failed && a.assetId == ""
    ensures exists ops :: HandsOver(a, ops)
    ensures exists ops :: AllLeave(ops, a.assetId) && RunFrom(Retried(a), ops) != Retried(a)
  {
    var deliver := Process(0, 0, Created("x", ""));
    assert OpaqueIds("x", "") by {
      assert "x"[1..] == "" && !("://" <= "x") && !("://" <= "");
    }
    var ops := [deliver];
    assert ops[..0] == [];
    assert RunFrom(Retried(a), []) == Retried(a);
    assert HandsOver(a, ops);
    assert RunFrom(Retried(a), ops) == Step(Retried(a), deliver).0;
  }

  // ----- what a hand-off says of the upload -----

  /** The step that decides what was uploaded: verified, or rejected. */
  ghost predicate Decided(ops: seq<Op>, k: nat)
    requires k < |ops|
  {
    ops[k].CompleteUpload? && AnswerAt(ops, k) in {Saved, Rejected}
  }

  lemma DecidesOnce(asset: Option<Asset>, op: Op)
    requires Sound(asset)
    ensures var (after, answer) := Step(asset, op);
            if op.RequestUpload? && answer == Saved then after.Some? && after.value.status == Pending
            else if op.CompleteUpload? && answer in {Saved, Rejected} then
              && asset.Some? && asset.value.status == Pending && after.Some? && after.value.status != Pending
              && (answer == Saved ==> op.found.Good? && after.value.bytes == op.found.size)
            else
              && (after.Some? <==> asset.Some?)
              && (asset.Some? ==> (after.value.status == Pending <==> asset.value.status == Pending))
              && (asset.Some? ==> after.value.bytes == asset.value.bytes)
  {
    hide Contains, RetryCountdown;
  }

  /** The last upload granted before step `n`, and no decision on it yet. */
  ghost predicate AwaitsDecision(ops: seq<Op>, u: nat, n: nat)
    requires u < n <= |ops|
  {
    Renewed(ops, u) && forall k :: u < k < n ==> !Renewed(ops, k) && !Decided(ops, k)
  }

  /** The last upload granted, and the one decision there has been on it. */
  ghost predicate DecidedOnce(ops: seq<Op>, u: nat, v: nat, n: nat)
    requires u < v < n <= |ops|
  {
    && Renewed(ops, u) && Decided(ops, v)
    && forall k :: u < k < n && k != v ==> !Renewed(ops, k) && !Decided(ops, k)
  }

  /** In every run a row that is not pending follows exactly one decision on the last upload granted for it. */
  lemma {:induction false} UploadIsDecidedOnce(ops: seq<Op>, n: nat) returns (u: nat, v: nat)
    requires n <= |ops| && Run(ops[..n]).Some?
    ensures Run(ops[..n]).value.status == Pending ==> u < n && AwaitsDecision(ops, u, n)
    ensures Run(ops[..n]).value.status != Pending ==> u < v < n && DecidedOnce(ops, u, v, n)
    ensures Run(ops[..n]).value.status != Pending && AnswerAt(ops, v) == Saved ==>
              ops[v].found.Good? && Run(ops[..n]).value.bytes == ops[v].found.size
    decreases n
  {
    hide Step, Sound;
    assert n > 0;
    RunNext(ops, n - 1);
    EveryRunIsSound(ops[..n - 1]);
    DecidesOnce(Run(ops[..n - 1]), ops[n - 1]);
    if Renewed(ops, n - 1) {
      u, v := n - 1, 0;
    } else {
      u, v := UploadIsDecidedOnce(ops, n - 1);
      if Decided(ops, n - 1) {
        v := n - 1;
      }
    }
  }

  /**
    So every hand-off follows one decision on its upload. It need not be that the file was good: the retry
    button asks only that the row has failed, and a rejected upload, whose object is deleted, has. A hand-off
    without a retry since the decision is of a verified file, of the size on the row.
  */
  lemma {:induction false} HandoffWasDecided(ops: seq<Op>, n: nat) returns (u: nat, v: nat)
    requires n < |ops| && AnswerAt(ops, n) == HandedOver
    ensures u < v < n && DecidedOnce(ops, u, v, n) && Run(ops[..n]).Some?
    ensures AnswerAt(ops, v) == Saved ==> ops[v].found.Good? && Run(ops[..n]).value.bytes == ops[v].found.size
    ensures AnswerAt(ops, v) == Rejected ==> exists k :: v < k < n && RetriedAt(ops, k)
  {
    hide Step, Run;
    HandedOverExactly(Run(ops[..n]), ops[n]);
    u, v := UploadIsDecidedOnce(ops, n);
    if AnswerAt(ops, v) == Rejected && forall k :: v < k < n ==> !RetriedAt(ops, k) {
      RunNext(ops, v);
      EveryRunIsSound(ops[..v]);
      RejectionFails(Run(ops[..v]), ops[v]);
      FailedStays(ops, v + 1, n);
    }
  }

  ghost predicate RetriedAt(ops: seq<Op>, k: nat)
    requires k < |ops|
  {
    ops[k].RetryProcessing? && AnswerAt(ops, k) == Saved
  }

  predicate FailedWithoutIds(asset: Option<Asset>) {
    asset.Some? && asset.value.status == Failed && asset.value.assetId == "" && asset.value.provider == ""
  }

  lemma RejectionFails(asset: Option<Asset>, op: Op)
    requires Sound(asset) && op.CompleteUpload? && Step(asset, op).1 == Rejected
    ensures FailedWithoutIds(Step(asset, op).0)
  {
  }

  lemma FailedStep(asset: Option<Asset>, op: Op)
    requires FailedWithoutIds(asset)
    requires !(op.RequestUpload? && Step(asset, op).1 == Saved) && !(op.RetryProcessing? && Step(asset, op).1 == Saved)
    ensures FailedWithoutIds(Step(asset, op).0)
  {
    hide Contains, RetryCountdown;
  }

  lemma {:induction false} FailedStays(ops: seq<Op>, i: nat, n: nat)
    requires i <= n <= |ops| && FailedWithoutIds(Run(ops[..i]))
    requires forall k :: i <= k < n ==> !Renewed(ops, k) && !RetriedAt(ops, k)
    ensures FailedWithoutIds(Run(ops[..n]))
    decreases n
  {
    hide Step, Run, FailedWithoutIds;
    if i < n {
      FailedStays(ops, i, n - 1);
      RunNext(ops, n - 1);
      assert !Renewed(ops, n - 1) && !RetriedAt(ops, n - 1);
      FailedStep(Run(ops[..n - 1]), ops[n - 1]);
    }
  }

  /** And one click is enough: a rejected upload is handed over once somebody retries it. */
  lemma RejectedUploadIsHandedOver(a: Asset, found: Found, maxRetries: nat, assetId: string, playbackId: string)
    requires Sound(Some(a)) && a.status == Pending && (found.TooLarge? || found.WrongType?)
    requires OpaqueIds(assetId, playbackId)
    ensures var rejected := Step(Some(a), CompleteUpload(true, found));
            var retried := Step(rejected.0, RetryProcessing(true)).0;
            && rejected.1 == Rejected
            && Step(retried, Process(0, maxRetries, Created(assetId, playbackId))).1 == HandedOver
  {
    hide Contains;
  }

  // ----- what a ready row says of the provider's report -----

  ghost predicate ReportedAt(ops: seq<Op>, k: nat)
    requires k < |ops|
  {
    ops[k].Webhook? && AnswerAt(ops, k) == Applied
  }

  lemma ReadyStep(asset: Option<Asset>, op: Op)
    requires Step(asset, op).0.Some? && Step(asset, op).0.value.status == Ready
    ensures if op.Webhook? && Step(asset, op).1 == Applied
            then op.report == ReportReady(Step(asset, op).0.value.duration)
            else asset == Step(asset, op).0
  {
    hide Contains, RetryCountdown;
  }

  /** In every run a row that can be played was reported ready, with the duration it shows, and not reported since. */
  lemma {:induction false} ReadyMeansReported(ops: seq<Op>, n: nat) returns (r: nat)
    requires n <= |ops| && Run(ops[..n]).Some? && Run(ops[..n]).value.status == Ready
    ensures r < n && ReportedAt(ops, r) && ops[r].report == ReportReady(Run(ops[..n]).value.duration)
    ensures forall k :: r < k < n ==> !ReportedAt(ops, k) && Run(ops[..k]) == Run(ops[..n])
    decreases n
  {
    hide Step;
    assert n > 0;
    RunNext(ops, n - 1);
    ReadyStep(Run(ops[..n - 1]), ops[n - 1]);
    if ReportedAt(ops, n - 1) {
      r := n - 1;
    } else {
      r := ReadyMeansReported(ops, n - 1);
    }
  }

  // ----- one delivery chain -----

  datatype Chain = Chain(asset: Option<Asset>, attempts: nat, waited: nat, answer: Answer)

  /**
    The task from its `retries`-th attempt on. Uploads, reports and clicks may come between attempts, so the
    row each one meets is arbitrary: `met[k]` at attempt `k`, where the provider does `handoffs[k]`.
  */
  function Deliver(met: seq<Option<Asset>>, retries: nat, maxRetries: nat, handoffs: seq<Handoff>): Chain
    requires retries <= maxRetries && |met| == |handoffs| == maxRetries + 1
    decreases maxRetries - retries
  {
    var (after, answer) := Step(met[retries], Process(retries, maxRetries, handoffs[retries]));
    if answer.RetryIn? && retries < maxRetries then
      var rest := Deliver(met, retries + 1, maxRetries, handoffs);
      Chain(rest.asset, rest.attempts + 1, rest.waited + answer.seconds, rest.answer)
    else Chain(after, 1, 0, answer)
  }

  lemma RetryStep(met: Option<Asset>, retries: nat, maxRetries: nat, handoff: Handoff)
    ensures var answer := Step(met, Process(retries, maxRetries, handoff)).1;
            answer.RetryIn? ==> retries < maxRetries && answer.seconds == RetryCountdown(retries + 1)
  {
    hide OpaqueIds, FailedAsset, RetryCountdown;
  }

  /** Whatever happens to the row in between, a chain ends in time and never asks for one attempt too many. */
  lemma {:induction false} ChainIsBounded(met: seq<Option<Asset>>, retries: nat, maxRetries: nat,
                                          handoffs: seq<Handoff>)
    requires retries <= maxRetries && |met| == |handoffs| == maxRetries + 1
    ensures var c := Deliver(met, retries, maxRetries, handoffs);
            && 1 <= c.attempts <= maxRetries - retries + 1 && !c.answer.RetryIn?
            && c.waited <= 20 * (Power2(maxRetries) - Power2(retries))
    decreases maxRetries - retries
  {
    hide Step;
    RetryStep(met[retries], retries, maxRetries, handoffs[retries]);
    PowersGrow(retries, maxRetries);
    if Step(met[retries], Process(retries, maxRetries, handoffs[retries])).1.RetryIn? {
      ChainIsBounded(met, retries + 1, maxRetries, handoffs);
    }
  }

  lemma {:induction false} PowersGrow(m: nat, n: nat)
    requires m <= n
    ensures Power2(m) <= Power2(n)
    decreases n
  {
    if m < n {
      PowersGrow(m, n - 1);
    }
  }

  /** A row the task hands over. */
  predicate Waiting(asset: Option<Asset>) {
    asset.Some? && asset.value.assetId == "" && asset.value.status == Uploaded
  }

  lemma OutageStep(met: Option<Asset>, retries: nat, maxRetries: nat, handoff: Handoff)
    requires Waiting(met) && handoff.Raised? && retries <= maxRetries
    ensures var (after, answer) := Step(met, Process(retries, maxRetries, handoff));
            if retries < maxRetries then answer == RetryIn(RetryCountdown(retries + 1)) && Waiting(after)
            else answer == DeadLettered && after.Some? && after.value.status == Failed
                 && after.value.retryCount == maxRetries && after.value.errorMessage != ""
  {
    hide OpaqueIds, RetryCountdown;
  }

  /**
    A provider that stays down, for a row that is waiting at each attempt, costs every attempt, the whole
    back-off to the second, and one dead letter.
  */
  lemma {:induction false} OutageSpendsTheWholeBudget(met: seq<Option<Asset>>, retries: nat, maxRetries: nat,
                                                      handoffs: seq<Handoff>)
    requires retries <= maxRetries && |met| == |handoffs| == maxRetries + 1
    requires forall k :: retries <= k <= maxRetries ==> Waiting(met[k]) && handoffs[k].Raised?
    ensures var c := Deliver(met, retries, maxRetries, handoffs);
            && c.attempts == maxRetries - retries + 1
            && c.waited == 20 * (Power2(maxRetries) - Power2(retries))
            && c.answer == DeadLettered && c.asset.Some? && c.asset.value.status == Failed
            && c.asset.value.retryCount == maxRetries && c.asset.value.errorMessage != ""
    decreases maxRetries - retries
  {
    hide Step, Waiting;
    OutageStep(met[retries], retries, maxRetries, handoffs[retries]);
    if retries < maxRetries {
      OutageSpendsTheWholeBudget(met, retries + 1, maxRetries, handoffs);
    }
  }
}
