/** Folding a player's heartbeats into one progress row, and what any sequence of them amounts to. */
module Heartbeats {
  import opened Options

  type Time = int

  /** The cap on one beat, and the completion threshold as the fraction `p / q`. */
  datatype Settings = Settings(cap: nat, p: nat, q: nat) {
    predicate Valid() {
      0 < p <= q
    }
  }

  datatype Beat = Beat(position: int, delta: int, now: Time)
  datatype Progress = Progress(last: nat, furthest: nat, watched: nat, completedAt: Option<Time>)

  const FRESH := Progress(0, 0, 0, None)

  function Max(a: int, b: int): int {
    if a < b then b else a
  }

  function Min(a: int, b: int): int {
    if a < b then a else b
  }

  /** `is_complete`: watched time against the duration; an unknown or zero duration completes nothing. */
  predicate IsComplete(watched: nat, duration: Option<nat>, s: Settings) {
    duration.Some? && duration.value != 0 && watched * s.q >= duration.value * s.p
  }

  function Clamped(delta: int, cap: nat): nat {
    Max(0, Min(delta, cap))
  }

  function Capped(watched: nat, duration: Option<nat>): nat {
    if duration.Some? && duration.value != 0 then Min(watched, duration.value) else watched
  }

  /** One beat on a row: the middle of `record_progress`. */
  function Fold(p: Progress, beat: Beat, duration: Option<nat>, s: Settings): Progress {
    var last := Max(0, beat.position);
    var watched := Capped(p.watched + Clamped(beat.delta, s.cap), duration);
    Progress(last, Max(p.furthest, last), watched,
             if p.completedAt.None? && IsComplete(watched, duration, s) then Some(beat.now) else p.completedAt)
  }

  /** The row after all beats, from a fresh one. */
  function After(beats: seq<Beat>, duration: Option<nat>, s: Settings): Progress {
    if beats == [] then FRESH else
      var n := |beats| - 1;
      Fold(After(beats[..n], duration, s), beats[n], duration, s)
  }

  /** The time a beat may claim: none of it negative, and no more than the cap. */
  function Claimed(beat: Beat, cap: nat): nat {
    if beat.delta < 0 then 0 else if beat.delta > cap then cap else beat.delta
  }

  function TotalWatched(beats: seq<Beat>, cap: nat): nat {
    if beats == [] then 0 else
      var n := |beats| - 1;
      TotalWatched(beats[..n], cap) + Claimed(beats[n], cap)
  }

  function FurthestPosition(beats: seq<Beat>): nat {
    if beats == [] then 0 else
      var n := |beats| - 1;
      Max(FurthestPosition(beats[..n]), Max(0, beats[n].position))
  }

  /** No more than the length of the lesson, where that is known. */
  function Within(watched: nat, duration: Option<nat>): nat {
    match duration
    case None => watched
    case Some(length) => if length > 0 && watched > length then length else watched
  }

  lemma MoreWatchedStaysComplete(watched: nat, more: nat, duration: Option<nat>, s: Settings)
    requires watched <= more && IsComplete(watched, duration, s)
    ensures IsComplete(more, duration, s)
  {
    ScaledOrder(watched, more, s.q);
  }

  /**
    Saturating and clamping step by step is saturating once at the end: what was watched is the capped sum
    of the clamped deltas, the furthest position is the largest, and the lesson is complete exactly when
    that capped sum reaches the threshold, at whatever beat it did.
  */
  lemma {:induction false} AfterInClosedForm(beats: seq<Beat>, duration: Option<nat>, s: Settings)
    ensures var p := After(beats, duration, s);
            && p.watched == Within(TotalWatched(beats, s.cap), duration)
            && p.furthest == FurthestPosition(beats) && p.last <= p.furthest
            && (s.p > 0 ==> (p.completedAt.Some? <==>
                  duration.Some? && duration.value > 0 && p.watched * s.q >= duration.value * s.p))
  {
    if beats == [] {
      if s.p > 0 && duration.Some? && duration.value != 0 {
        assert duration.value * s.p > 0;
      }
    } else {
      var n := |beats| - 1;
      AfterInClosedForm(beats[..n], duration, s);
      var before := After(beats[..n], duration, s);
      var watched := After(beats, duration, s).watched;
      if IsComplete(before.watched, duration, s) {
        MoreWatchedStaysComplete(before.watched, watched, duration, s);
      }
    }
  }

  /** Where the player resumes is where the last beat was, and never before the start. */
  lemma PlayheadIsTheLastBeat(beats: seq<Beat>, duration: Option<nat>, s: Settings)
    requires beats != []
    ensures var position := beats[|beats| - 1].position;
            After(beats, duration, s).last == if position < 0 then 0 else position
  {
  }

  // ----- order and repetition -----

  function Without(beats: seq<Beat>, i: nat): seq<Beat>
    requires i < |beats|
  {
    beats[..i] + beats[i + 1..]
  }

  lemma {:induction false} TakeOneOut(beats: seq<Beat>, i: nat, cap: nat)
    requires i < |beats|
    ensures TotalWatched(beats, cap) == TotalWatched(Without(beats, i), cap) + Claimed(beats[i], cap)
    ensures FurthestPosition(beats) == Max(FurthestPosition(Without(beats, i)), Max(0, beats[i].position))
  {
    hide Claimed;
    var n := |beats| - 1;
    var rest := Without(beats, i);
    if i == n {
      assert rest == beats[..n];
    } else {
      TakeOneOut(beats[..n], i, cap);
      assert rest[..n - 1] == Without(beats[..n], i);
      assert rest[n - 1] == beats[n];
    }
  }

  lemma {:induction false} OrderIsIrrelevant(beats: seq<Beat>, beats': seq<Beat>, cap: nat)
    requires multiset(beats) == multiset(beats')
    ensures TotalWatched(beats, cap) == TotalWatched(beats', cap)
    ensures FurthestPosition(beats) == FurthestPosition(beats')
    decreases |beats|
  {
    hide TotalWatched, FurthestPosition;
    assert |beats| == |multiset(beats)| == |multiset(beats')| == |beats'|;
    if beats != [] {
      var n := |beats| - 1;
      var last := beats[n];
      assert last in multiset(beats');
      var i :| 0 <= i < |beats'| && beats'[i] == last;
      assert beats == beats[..n] + [last];
      assert beats' == beats'[..i] + [last] + beats'[i + 1..];
      assert multiset(beats[..n]) == multiset(beats) - multiset{last};
      assert multiset(Without(beats', i)) == multiset(beats') - multiset{last};
      OrderIsIrrelevant(beats[..n], Without(beats', i), cap);
      TakeOneOut(beats', i, cap);
      TakeOneOut(beats, n, cap);
      assert Without(beats, n) == beats[..n];
    } else {
      assert beats' == [];
    }
  }

  /** However the network reorders the beats, the learner has watched as much and finished or not. */
  lemma ReorderedBeatsAgree(beats: seq<Beat>, beats': seq<Beat>, duration: Option<nat>, s: Settings)
    requires s.Valid() && multiset(beats) == multiset(beats')
    ensures var p, p' := After(beats, duration, s), After(beats', duration, s);
            && p.watched == p'.watched && p.furthest == p'.furthest
            && (p.completedAt.Some? <==> p'.completedAt.Some?)
  {
    hide After, TotalWatched, IsComplete;
    OrderIsIrrelevant(beats, beats', s.cap);
    AfterInClosedForm(beats, duration, s);
    AfterInClosedForm(beats', duration, s);
  }

  /** A beat delivered twice, with any others in between, costs at most one cap of watched time. */
  lemma DuplicateCostsAtMostTheCap(beats: seq<Beat>, k: nat, at: nat, duration: Option<nat>, s: Settings)
    requires s.Valid() && k < |beats| && at <= |beats|
    ensures var more := beats[..at] + [beats[k]] + beats[at..];
            After(beats, duration, s).watched <= After(more, duration, s).watched
              <= After(beats, duration, s).watched + s.cap
  {
    hide After, TotalWatched, FurthestPosition, IsComplete;
    var more := beats[..at] + [beats[k]] + beats[at..];
    assert more[at] == beats[k];
    assert Without(more, at) == beats;
    TakeOneOut(more, at, s.cap);
    AfterInClosedForm(beats, duration, s);
    AfterInClosedForm(more, duration, s);
  }

  // ----- how many beats it takes -----

  lemma {:induction false} TotalIsBounded(beats: seq<Beat>, cap: nat)
    ensures TotalWatched(beats, cap) <= |beats| * cap
    ensures (forall i :: 0 <= i < |beats| ==> beats[i].delta >= cap) ==> TotalWatched(beats, cap) == |beats| * cap
  {
    if beats != [] {
      TotalIsBounded(beats[..|beats| - 1], cap);
      assert |beats| * cap == (|beats| - 1) * cap + cap;
    }
  }

  /** Nobody finishes a lesson by watching in fewer beats than the threshold needs at the cap. */
  lemma {:induction false} CompletionNeedsEnoughBeats(beats: seq<Beat>, duration: nat, s: Settings)
    requires s.Valid() && After(beats, Some(duration), s).completedAt.Some?
    ensures |beats| * s.cap * s.q >= duration * s.p
  {
    hide After, TotalWatched, FurthestPosition;
    AfterInClosedForm(beats, Some(duration), s);
    TotalIsBounded(beats, s.cap);
    var watched, most := After(beats, Some(duration), s).watched, |beats| * s.cap;
    ScaledOrder(watched, most, s.q);
  }

  lemma ScaledOrder(a: nat, b: nat, c: nat)
    requires a <= b
    ensures a * c <= b * c
  {
  }

  /** And that many full beats are enough: the bound is exact. */
  lemma FullBeatsCompleteExactly(beats: seq<Beat>, duration: nat, s: Settings)
    requires s.Valid() && duration > 0 && forall i :: 0 <= i < |beats| ==> beats[i].delta >= s.cap
    ensures After(beats, Some(duration), s).completedAt.Some? <==> |beats| * s.cap * s.q >= duration * s.p
  {
    hide After, TotalWatched, FurthestPosition;
    AfterInClosedForm(beats, Some(duration), s);
    TotalIsBounded(beats, s.cap);
    var total := |beats| * s.cap;
    if total >= duration {
      ScaledOrder(s.p, s.q, duration);
      ScaledOrder(duration, total, s.q);
    }
  }
}
