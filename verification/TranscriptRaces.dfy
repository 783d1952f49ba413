/**
  The same pipeline when a request for subtitles is not one atomic step: it reads the transcript row, then
  the cues, and only then the cache, with anything committed in between. The cache stays right; the answer
  may not be.
*/
module TranscriptRaces {
  import opened Backoff
  import opened Options
  import opened Transcripts
  import opened TranscriptRuns
  import opened TranscriptCache

  /** A request that has read its row, and perhaps the cues it will print. */
  datatype InFlight = InFlight(version: Version, body: Option<string>)

  datatype World = World(db: Database, flights: map<nat, InFlight>)

  datatype Move =
    | Atomic(op: Op)
    | ReadRow(client: nat, key: Key, ifNoneMatch: Option<Version>)
    | ReadCues(client: nat)
    | Respond(client: nat)

  /** `cache.get_or_set` with the text already printed from what was read. */
  function GetOrSet(db: Database, version: Version, body: string): (Database, Answer) {
    if version in db.cache then (db, Vtt200(version, db.cache[version]))
    else (db.(cache := db.cache[version := body]), Vtt200(version, body))
  }

  ghost function Next(w: World, move: Move): (World, Answer) {
    match move
    case Atomic(op) => (w.(db := Step(w.db, op).0), Step(w.db, op).1)
    case ReadRow(client, key, ifNoneMatch) =>
      if !IsApproved(w.db, key) then (w, NotFound) else
        var version := Version(key, w.db.transcripts[key].updatedAt);
        if ifNoneMatch == Some(version) then (w, NotModified(version)) else
        (w.(flights := w.flights[client := InFlight(version, None)]), Saved)
    case ReadCues(client) =>
      if client !in w.flights || w.flights[client].version.key !in w.db.transcripts then (w, Gone) else
        var body := Rendered(w.db.transcripts[w.flights[client].version.key]);
        (w.(flights := w.flights[client := w.flights[client].(body := body)]), Saved)
    case Respond(client) =>
      if client !in w.flights || w.flights[client].body.None? then (w, Gone) else
        var (db, answer) := GetOrSet(w.db, w.flights[client].version, w.flights[client].body.value);
        (World(db, w.flights - {client}), answer)
  }

  ghost function Race(moves: seq<Move>): World {
    if moves == [] then World(EMPTY, map[]) else Next(Race(moves[..|moves| - 1]), moves[|moves| - 1]).0
  }

  /** The same history with the split requests left out: nothing they do touches a transcript. */
  function Sequential(moves: seq<Move>): (ops: seq<Op>)
    ensures |ops| == |moves|
  {
    if moves == [] then [] else
      var n := |moves| - 1;
      Sequential(moves[..n]) + [if moves[n].Atomic? then moves[n].op else EvictOp(Version(Key(0, 0), 0))]
  }

  ghost predicate SameRows(db: Database, other: Database) {
    db.transcripts == other.transcripts && db.events == other.events
  }

  lemma RequestIgnoresTheCache(db: Database, other: Database, key: Key, media: Media, retries: nat, max: nat,
                               submission: Submission, now: Time)
    requires SameRows(db, other)
    ensures SameRows(Request(db, key, media, retries, max, submission, now).0,
                     Request(other, key, media, retries, max, submission, now).0)
  {
    hide FailedRow, RetryCountdown, JobTaken, HasJob, Fresh, WithRow, SameRows;
    RowsSame(db, other);
    forall t
      ensures SameRows(WithRow(db, key, t), WithRow(other, key, t))
    {
      WritesAgree(db, other, key);
    }
  }

  lemma RowsSame(db: Database, other: Database)
    requires SameRows(db, other)
    ensures db.transcripts == other.transcripts
  {
  }

  lemma DeliverIgnoresTheCache(db: Database, other: Database, jobId: JobId)
    requires SameRows(db, other)
    ensures SameRows(Deliver(db, jobId).0, Deliver(other, jobId).0)
  {
    hide FailedRow, TranscribedRow, Acceptable, FindByJob;
    assert other == Database(db.transcripts, db.events, other.cache);
    if jobId in db.events {
      assert SameRows(Processed(db, jobId), Processed(other, jobId));
      var found := FindByJob(db.transcripts, jobId);
      if found.Some? {
        hide Processed;
        WritesAgree(Processed(db, jobId), Processed(other, jobId), found.value);
      }
    }
  }

  lemma WritesAgree(db: Database, other: Database, key: Key)
    requires SameRows(db, other)
    ensures forall t :: SameRows(WithRow(db, key, t), WithRow(other, key, t))
  {
  }

  lemma TranscriptsIgnoreTheCache(db: Database, other: Database, op: Op)
    requires SameRows(db, other)
    ensures SameRows(Step(db, op).0, Step(other, op).0)
  {
    hide Rendered, Request, Deliver, EditedRow, ApprovedRow, GetOr;
    match op
    case RequestOp(key, media, retries, max, submission, now) =>
      RequestIgnoresTheCache(db, other, key, media, retries, max, submission, now);
    case DeliverOp(jobId) => DeliverIgnoresTheCache(db, other, jobId);
    case _ =>
  }

  lemma {:induction false} SequentialAgrees(moves: seq<Move>)
    ensures SameRows(Race(moves).db, Run(Sequential(moves)))
  {
    if moves != [] {
      hide Step, Rendered, IsApproved;
      var n := |moves| - 1;
      SequentialAgrees(moves[..n]);
      var ops := Sequential(moves);
      assert ops[..n] == Sequential(moves[..n]);
      TranscriptsIgnoreTheCache(Race(moves[..n]).db, Run(ops[..n]), ops[n]);
      EvictionKeepsRows(Run(ops[..n]));
    }
  }

  lemma EvictionKeepsRows(db: Database)
    ensures SameRows(Step(db, EvictOp(Version(Key(0, 0), 0))).0, db)
  {
  }

  lemma {:induction false} SequentialPrefix(moves: seq<Move>, i: nat)
    requires i <= |moves|
    ensures Sequential(moves[..i]) == Sequential(moves)[..i]
    decreases |moves|
  {
    if i < |moves| {
      SequentialPrefix(moves[..|moves| - 1], i);
      assert moves[..|moves| - 1][..i] == moves[..i];
    } else {
      assert moves[..i] == moves;
    }
  }

  /** The rows before move `i`, seen as a sequential history. */
  lemma RowsAt(moves: seq<Move>, i: nat)
    requires i <= |moves|
    ensures Race(moves[..i]).db.transcripts == At(Sequential(moves), i).transcripts
  {
    hide Race, Run;
    SequentialAgrees(moves[..i]);
    SequentialPrefix(moves, i);
  }

  // ----- where versions and bodies come from -----

  /** At move `i` the version was current, and at a move `m` no earlier the body was printed. */
  ghost predicate ComesFrom(moves: seq<Move>, i: nat, m: nat, version: Version, body: Option<string>)
    requires i <= m < |moves|
  {
    && IsApproved(Race(moves[..i]).db, version.key)
    && Race(moves[..i]).db.transcripts[version.key].updatedAt == version.stamp
    && (body.Some? ==>
          version.key in Race(moves[..m]).db.transcripts
          && Rendered(Race(moves[..m]).db.transcripts[version.key]) == body)
  }

  lemma RaceNext(moves: seq<Move>, i: nat)
    requires i < |moves|
    ensures Race(moves[..i + 1]) == Next(Race(moves[..i]), moves[i]).0
  {
    hide Next;
    assert moves[..i + 1][..i] == moves[..i];
  }

  lemma {:induction false} FlightProvenance(moves: seq<Move>, n: nat, client: nat) returns (i: nat, m: nat)
    requires n <= |moves| && client in Race(moves[..n]).flights
    ensures i <= m < n
    ensures ComesFrom(moves, i, m, Race(moves[..n]).flights[client].version, Race(moves[..n]).flights[client].body)
    decreases n
  {
    hide Rendered, IsApproved, Race, Step;
    NothingAtFirst(moves);
    if n > 0 {
      RaceNext(moves, n - 1);
      var before, move := Race(moves[..n - 1]), moves[n - 1];
      if move.ReadRow? && move.client == client && Begins(before, move) {
        ReadRowReadsCurrent(before, move);
        i, m := n - 1, n - 1;
      } else {
        FlightStays(before, move, client);
        i, m := FlightProvenance(moves, n - 1, client);
        if move == ReadCues(client) && before.flights[client].version.key in before.db.transcripts {
          m := n - 1;
        }
      }
    }
  }

  /** The first read of a request that goes on to its second. */
  ghost predicate Begins(w: World, move: Move) {
    && move.ReadRow? && IsApproved(w.db, move.key)
    && move.ifNoneMatch != Some(Version(move.key, w.db.transcripts[move.key].updatedAt))
  }

  lemma ReadRowReadsCurrent(w: World, move: Move)
    requires Begins(w, move)
    ensures Next(w, move).0.flights ==
            w.flights[move.client := InFlight(Version(move.key, w.db.transcripts[move.key].updatedAt), None)]
  {
  }

  lemma FlightStays(w: World, move: Move, client: nat)
    requires client in Next(w, move).0.flights
    requires !(Begins(w, move) && move.client == client)
    ensures client in w.flights
    ensures Next(w, move).0.flights[client] ==
            if move == ReadCues(client) && w.flights[client].version.key in w.db.transcripts
            then w.flights[client].(body := Rendered(w.db.transcripts[w.flights[client].version.key]))
            else w.flights[client]
  {
    hide Rendered, Step, IsApproved;
  }

  lemma NothingAtFirst(moves: seq<Move>)
    ensures Race(moves[..0]) == World(EMPTY, map[])
  {
    assert moves[..0] == [];
  }

  /** A body in the cache was printed for its version by some request, or by an atomic one. */
  lemma {:induction false} EntryProvenance(moves: seq<Move>, n: nat, version: Version) returns (i: nat, m: nat)
    requires n <= |moves| && version in Race(moves[..n]).db.cache
    ensures i <= m < n
    ensures ComesFrom(moves, i, m, version, Some(Race(moves[..n]).db.cache[version]))
    decreases n
  {
    hide Rendered, Race, Step;
    NothingAtFirst(moves);
    if n > 0 {
      RaceNext(moves, n - 1);
      var before, move := Race(moves[..n - 1]), moves[n - 1];
      var body := Race(moves[..n]).db.cache[version];
      if version in before.db.cache && before.db.cache[version] == body {
        i, m := EntryProvenance(moves, n - 1, version);
      } else if move.Atomic? {
        StepFillsCache(before.db, move.op, version);
        i, m := n - 1, n - 1;
      } else {
        assert move.Respond? && before.flights[move.client] == InFlight(version, Some(body));
        i, m := FlightProvenance(moves, n - 1, move.client);
      }
    }
  }

  // ----- the cache is right, whatever the interleaving -----

  /** Between two moments of one version nothing touched the row, so it was the same at any moment between. */
  lemma SameRowBetween(ops: seq<Op>, i: nat, m: nat, n: nat, key: Key)
    requires StampsDistinct(ops) && i <= m <= n <= |ops|
    requires IsApproved(At(ops, i), key) && IsApproved(At(ops, n), key)
    requires At(ops, i).transcripts[key].updatedAt == At(ops, n).transcripts[key].updatedAt
    ensures key in At(ops, m).transcripts && At(ops, m).transcripts[key] == At(ops, n).transcripts[key]
  {
    hide Run, Step, Signs;
    var a := LastApproval(ops, i, key);
    var b := LastApproval(ops, n, key);
    ApprovalSigns(ops, a, key);
    ApprovalSigns(ops, b, key);
    assert a == b;
  }

  /**
    If no two approvals of a transcript share a timestamp, then in every interleaving the entry under a
    current version is the current print: what a slow request stored under an older version is never asked for.
  */
  lemma CurrentEntryIsRight(moves: seq<Move>, key: Key)
    requires StampsDistinct(Sequential(moves)) && IsApproved(Race(moves).db, key)
    ensures var version := Version(key, Race(moves).db.transcripts[key].updatedAt);
            version in Race(moves).db.cache ==>
              Rendered(Race(moves).db.transcripts[key]) == Some(Race(moves).db.cache[version])
  {
    hide Race, Run, Rendered, Sequential, StampsDistinct;
    var ops, n := Sequential(moves), |moves|;
    assert moves[..n] == moves;
    var version := Version(key, Race(moves).db.transcripts[key].updatedAt);
    if version in Race(moves).db.cache {
      var i, m := EntryProvenance(moves, n, version);
      RowsAt(moves, i);
      RowsAt(moves, m);
      RowsAt(moves, n);
      SameRowBetween(ops, i, m, n, key);
    }
  }

  /** A request answers with the current file when the version it read is still current as it answers. */
  lemma AnswerIsRightWhileCurrent(moves: seq<Move>, client: nat)
    requires StampsDistinct(Sequential(moves)) && client in Race(moves).flights
    requires Race(moves).flights[client].body.Some?
    ensures var version, answer := Race(moves).flights[client].version, Next(Race(moves), Respond(client)).1;
            && answer.Vtt200? && answer.etag == version
            && (IsCurrent(Race(moves).db, version) ==> Prints(Race(moves).db, version, answer.body))
  {
    hide Race, Run, Rendered, Sequential, StampsDistinct;
    var n := |moves|;
    assert moves[..n] == moves;
    var version := Race(moves).flights[client].version;
    if IsCurrent(Race(moves).db, version) {
      CurrentEntryIsRight(moves, version.key);
      var i, m := FlightProvenance(moves, n, client);
      BodyStaysRight(moves, i, m, n, version, Race(moves).flights[client].body);
    }
  }

  ghost predicate IsCurrent(db: Database, version: Version) {
    IsApproved(db, version.key) && db.transcripts[version.key].updatedAt == version.stamp
  }

  /** A body printed under a version that is current again, or still, is the current print. */
  lemma BodyStaysRight(moves: seq<Move>, i: nat, m: nat, n: nat, version: Version, body: Option<string>)
    requires StampsDistinct(Sequential(moves)) && i <= m < n <= |moves|
    requires ComesFrom(moves, i, m, version, body) && body.Some?
    requires IsCurrent(Race(moves[..n]).db, version)
    ensures Prints(Race(moves[..n]).db, version, body.value)
  {
    hide Race, Run, Rendered, Sequential, StampsDistinct;
    RowsAt(moves, i);
    RowsAt(moves, m);
    RowsAt(moves, n);
    SameRowBetween(Sequential(moves), i, m, n, version.key);
  }

  ghost function RaceAnswer(moves: seq<Move>, i: nat): Answer
    requires i < |moves|
  {
    Next(Race(moves[..i]), moves[i]).1
  }

  /** Where the body of any 200 comes from, split request or not. */
  lemma ServedProvenance(moves: seq<Move>, n: nat) returns (i: nat, m: nat)
    requires n < |moves| && RaceAnswer(moves, n).Vtt200?
    ensures i <= m <= n
    ensures ComesFrom(moves, i, m, RaceAnswer(moves, n).etag, Some(RaceAnswer(moves, n).body))
  {
    hide Rendered, Race, Step;
    var w, version, body := Race(moves[..n]), RaceAnswer(moves, n).etag, RaceAnswer(moves, n).body;
    if moves[n].Atomic? {
      ServedFrom(w.db, moves[n].op);
    }
    if version in w.db.cache && w.db.cache[version] == body {
      i, m := EntryProvenance(moves, n, version);
    } else if moves[n].Atomic? {
      i, m := n, n;
    } else {
      assert moves[n].Respond? && w.flights[moves[n].client] == InFlight(version, Some(body));
      i, m := FlightProvenance(moves, n, moves[n].client);
    }
  }

  lemma RowIsConstrained(moves: seq<Move>, n: nat, key: Key)
    requires n <= |moves| && key in Race(moves[..n]).db.transcripts
    ensures RowConstrained(Race(moves[..n]).db.transcripts[key])
  {
    hide Race, Run, Sequential;
    RowsAt(moves, n);
    EveryRunIsSound(Sequential(moves)[..n]);
  }

  /**
    Whatever the clock does and however requests are split, the body of a 200 was printed from the row as it
    stood at some earlier move `m`; and it is what the row prints as the answer is given exactly when the
    positions, times and texts are what they were then.
  */
  lemma AnswerIsRightExactly(moves: seq<Move>, n: nat) returns (m: nat)
    requires n < |moves| && RaceAnswer(moves, n).Vtt200?
    ensures m <= n
    ensures var key, body := RaceAnswer(moves, n).etag.key, RaceAnswer(moves, n).body;
            var before, now := Race(moves[..m]).db.transcripts, Race(moves[..n]).db.transcripts;
            && key in before && key in now && Rendered(before[key]) == Some(body)
            && (Rendered(now[key]) == Some(body) <==> Words(before[key].segments) == Words(now[key].segments))
  {
    hide Race, Run, Rendered, Sequential, Words, Step;
    var i;
    i, m := ServedProvenance(moves, n);
    var key := RaceAnswer(moves, n).etag.key;
    RowsAt(moves, m);
    RowsAt(moves, n);
    OneJobOneOutcome(Sequential(moves), m, n, key);
    RowIsConstrained(moves, m, key);
    RowIsConstrained(moves, n, key);
    PrintsTellWords(Race(moves[..m]).db.transcripts[key], Race(moves[..n]).db.transcripts[key]);
  }

  /**
    In every interleaving, a 304 goes only to a client whose copy is the current print, however that copy
    was read: what a request read too late was stored under a version that is never current again.
  */
  lemma RacingNotModifiedIsCurrent(moves: seq<Move>, i: nat, j: nat)
    requires StampsDistinct(Sequential(moves)) && i < j < |moves| && RaceAnswer(moves, i).Vtt200?
    requires RaceAnswer(moves, j) == NotModified(RaceAnswer(moves, i).etag)
    ensures Prints(Race(moves[..j]).db, RaceAnswer(moves, i).etag, RaceAnswer(moves, i).body)
  {
    hide Rendered, Race, Step, Sequential, StampsDistinct;
    var from, m := ServedProvenance(moves, i);
    if moves[j].Atomic? {
      NotModifiedFrom(Race(moves[..j]).db, moves[j].op);
    }
    BodyStaysRight(moves, from, m, j, RaceAnswer(moves, i).etag, Some(RaceAnswer(moves, i).body));
  }

  // ----- but an answer may not be -----

  /**
    An edit committed between a request's two reads reaches the learner unsigned: the words of a transcript
    that is by then back in review are served, under the version that was approved.
  */
  lemma RacingReaderSeesUnsignedWords(w: World, client: nat, key: Key, position: nat, text: string, now: Time)
    requires Constrained(w.db) && IsApproved(w.db, key) && position in w.db.transcripts[key].segments
    requires Version(key, w.db.transcripts[key].updatedAt) !in w.db.cache
    ensures var reading := Next(w, ReadRow(client, key, None)).0;
            var edited := Next(reading, Atomic(EditOp(key, position, true, Some(text), None, None, now))).0;
            var read := Next(edited, ReadCues(client)).0;
            && key in read.db.transcripts && read.db.transcripts[key].status == InReview
            && position in read.db.transcripts[key].segments
            && read.db.transcripts[key].segments[position].text == text
            && Rendered(read.db.transcripts[key]).Some?
            && Next(read, Respond(client)).1
               == Vtt200(Version(key, w.db.transcripts[key].updatedAt), Rendered(read.db.transcripts[key]).value)
  {
    hide Rendered, JobsUnique;
    var t := w.db.transcripts[key];
    assert RowConstrained(t);
    var was := t.segments[position];
    var row := EditedRow(t, position, Cue(was.startMs, was.endMs, text, true), now);
    assert Edit(w.db, key, position, true, Some(text), None, None, now).0 == WithRow(w.db, key, row);
    assert RowConstrained(row);
    PrintingNeverFails(row);
  }
}
