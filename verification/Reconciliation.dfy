/** `reconciliation_findings`: the report on stored subscription state, against the resolver's verdicts. */
module Reconciliation {
  import opened Options
  import opened Ordering
  import opened Entitlements

  datatype Code =
    ActivePastPeriod | TrialingPastEnd | PastDueBeyondGrace | CanceledPastPeriod | MultipleLiveSubscriptions

  datatype Finding = Finding(code: Code, grantsAccess: bool, count: nat, examples: seq<nat>)

  const CATEGORIES: seq<(Code, bool)> := [
    (ActivePastPeriod, true), (TrialingPastEnd, false), (PastDueBeyondGrace, false), (CanceledPastPeriod, false)
  ]
  const FINDING_EXAMPLES := 5

  /** The query condition of each category; a comparison with NULL is not satisfied. */
  predicate Matches(code: Code, s: Subscription, now: Time, grace: nat) {
    match code
    case ActivePastPeriod => s.status == Active && s.periodEnd < now
    case TrialingPastEnd => s.status == Trialing && s.trialEnd.Some? && s.trialEnd.value < now
    case PastDueBeyondGrace => s.status == PastDue && s.periodEnd < now - grace
    case CanceledPastPeriod => s.status == Canceled && s.periodEnd < now
    case MultipleLiveSubscriptions => false
  }

  predicate IsLive(status: Status) {
    status == Trialing || status == Active || status == PastDue
  }

  function Matching(rows: map<nat, Subscription>, code: Code, now: Time, grace: nat): set<nat> {
    set id | id in rows && Matches(code, rows[id], now, grace)
  }

  function LiveRows(rows: map<nat, Subscription>, user: nat): set<nat> {
    set id | id in rows && rows[id].user == user && IsLive(rows[id].status)
  }

  function Users(rows: map<nat, Subscription>): set<nat> {
    set id | id in rows :: rows[id].user
  }

  /** The users with more than one live row. */
  function Duplicated(rows: map<nat, Subscription>): set<nat> {
    set u | u in Users(rows) && |LiveRows(rows, u)| > 1
  }

  function Take(xs: seq<nat>, n: nat): seq<nat> {
    if |xs| <= n then xs else xs[..n]
  }

  /** The finding of one category, if it has any row. */
  function Report(code: Code, grantsAccess: bool, ids: set<nat>): seq<Finding> {
    if ids == {} then [] else [Finding(code, grantsAccess, |ids|, Take(Ascend(ids), FINDING_EXAMPLES))]
  }

  function Reports(rows: map<nat, Subscription>, categories: seq<(Code, bool)>, now: Time, grace: nat): seq<Finding> {
    if categories == [] then [] else
      var n := |categories| - 1;
      var (code, grants) := categories[n];
      Reports(rows, categories[..n], now, grace) + Report(code, grants, Matching(rows, code, now, grace))
  }

  function Findings(rows: map<nat, Subscription>, now: Time, grace: nat): seq<Finding> {
    Reports(rows, CATEGORIES, now, grace) + Report(MultipleLiveSubscriptions, true, Duplicated(rows))
  }

  method ReconciliationFindings(rows: map<nat, Subscription>, now: Time, grace: nat) returns (findings: seq<Finding>)
    ensures findings == Findings(rows, now, grace)
  {
    hide Ascend, Matches, Duplicated;
    findings := [];
    for i := 0 to |CATEGORIES|
      invariant findings == Reports(rows, CATEGORIES[..i], now, grace)
    {
      var (code, grantsAccess) := CATEGORIES[i];
      var matching := Matching(rows, code, now, grace);
      assert CATEGORIES[..i + 1][..i] == CATEGORIES[..i];
      if matching != {} {
        var examples := Take(Ascend(matching), FINDING_EXAMPLES);
        findings := findings + [Finding(code, grantsAccess, |matching|, examples)];
      }
    }
    assert CATEGORIES[..|CATEGORIES|] == CATEGORIES;
    var duplicated := Duplicated(rows);
    if duplicated != {} {
      var examples := Take(Ascend(duplicated), FINDING_EXAMPLES);
      findings := findings + [Finding(MultipleLiveSubscriptions, true, |duplicated|, examples)];
    }
  }

  // ----- agreement with the resolver -----

  predicate GrantsAccess(code: Code) {
    code == ActivePastPeriod || code == MultipleLiveSubscriptions
  }

  lemma CategoriesSayWhetherTheyGrant()
    ensures forall i :: 0 <= i < |CATEGORIES| ==> CATEGORIES[i].1 == GrantsAccess(CATEGORIES[i].0)
    ensures forall i, j :: 0 <= i < j < |CATEGORIES| ==> CATEGORIES[i].0 != CATEGORIES[j].0
  {
    assert CATEGORIES[0].0 == ActivePastPeriod && CATEGORIES[1].0 == TrialingPastEnd;
    assert CATEGORIES[2].0 == PastDueBeyondGrace && CATEGORIES[3].0 == CanceledPastPeriod;
  }

  lemma CategoryListed(code: Code)
    requires code != MultipleLiveSubscriptions
    ensures exists i :: 0 <= i < |CATEGORIES| && CATEGORIES[i].0 == code
  {
    assert CATEGORIES[0].0 == ActivePastPeriod && CATEGORIES[1].0 == TrialingPastEnd;
    assert CATEGORIES[2].0 == PastDueBeyondGrace && CATEGORIES[3].0 == CanceledPastPeriod;
  }

  /** The flag of a category is the resolver's own verdict on every row in it, and no row is in two. */
  lemma FlagIsTheVerdict(code: Code, s: Subscription, now: Time, grace: nat)
    requires Matches(code, s, now, grace)
    ensures DecideFor(s, now, grace).allowed == GrantsAccess(code)
    ensures forall other :: Matches(other, s, now, grace) ==> other == code
  {
  }

  /** The date a row's status is measured by; an expired row, or a trial with no end, has none. */
  function Due(s: Subscription, grace: nat): Option<Time> {
    match s.status
    case Active => Some(s.periodEnd)
    case Trialing => s.trialEnd
    case PastDue => Some(s.periodEnd + grace)
    case Canceled => Some(s.periodEnd)
    case Expired => None
  }

  predicate Reported(s: Subscription, now: Time, grace: nat) {
    exists code :: Matches(code, s, now, grace)
  }

  lemma ReportedWhenOverdue(s: Subscription, now: Time, grace: nat)
    ensures Reported(s, now, grace) <==> Due(s, grace).Some? && Due(s, grace).value < now
  {
    match s.status
    case Active => assert Matches(ActivePastPeriod, s, now, grace) <==> s.periodEnd < now;
    case Trialing => assert Matches(TrialingPastEnd, s, now, grace) <==> s.trialEnd.Some? && s.trialEnd.value < now;
    case PastDue => assert Matches(PastDueBeyondGrace, s, now, grace) <==> s.periodEnd + grace < now;
    case Canceled => assert Matches(CanceledPastPeriod, s, now, grace) <==> s.periodEnd < now;
    case Expired =>
  }

  /** The one instant the two disagree: a stale row exactly at its boundary is refused and not yet reported. */
  lemma RefusedButUnreported(s: Subscription, now: Time, grace: nat)
    requires s.status != Expired
    ensures !DecideFor(s, now, grace).allowed && !Reported(s, now, grace)
       <==> s.status != Active && Due(s, grace) == Some(now)
  {
    ReportedWhenOverdue(s, now, grace);
  }

  // ----- conservation -----

  function CountOf(findings: seq<Finding>): nat {
    if findings == [] then 0 else CountOf(findings[..|findings| - 1]) + findings[|findings| - 1].count
  }

  function Overdue(rows: map<nat, Subscription>, now: Time, grace: nat): set<nat> {
    set id | id in rows && Due(rows[id], grace).Some? && Due(rows[id], grace).value < now
  }

  lemma CountOfReport(findings: seq<Finding>, code: Code, grantsAccess: bool, ids: set<nat>)
    ensures CountOf(findings + Report(code, grantsAccess, ids)) == CountOf(findings) + |ids|
  {
    if ids == {} {
      assert findings + Report(code, grantsAccess, ids) == findings;
    } else {
      var all := findings + Report(code, grantsAccess, ids);
      assert all[..|all| - 1] == findings;
    }
  }

  ghost function MatchingAny(rows: map<nat, Subscription>, categories: seq<(Code, bool)>,
                             now: Time, grace: nat): set<nat>
  {
    set id | id in rows && exists i :: 0 <= i < |categories| && Matches(categories[i].0, rows[id], now, grace)
  }

  lemma {:induction false} ReportsCountRows(rows: map<nat, Subscription>, categories: seq<(Code, bool)>,
                                            now: Time, grace: nat)
    requires forall i, j :: 0 <= i < j < |categories| ==> categories[i].0 != categories[j].0
    ensures CountOf(Reports(rows, categories, now, grace)) == |MatchingAny(rows, categories, now, grace)|
  {
    hide Matches;
    if categories != [] {
      var n := |categories| - 1;
      var init := categories[..n];
      var (code, grants) := categories[n];
      ReportsCountRows(rows, init, now, grace);
      CountOfReport(Reports(rows, init, now, grace), code, grants, Matching(rows, code, now, grace));
      MatchingSplits(rows, categories, now, grace);
    }
  }

  lemma MatchingSplits(rows: map<nat, Subscription>, categories: seq<(Code, bool)>, now: Time, grace: nat)
    requires categories != []
    requires forall i, j :: 0 <= i < j < |categories| ==> categories[i].0 != categories[j].0
    ensures |MatchingAny(rows, categories, now, grace)|
         == |MatchingAny(rows, categories[..|categories| - 1], now, grace)|
            + |Matching(rows, categories[|categories| - 1].0, now, grace)|
  {
    hide Matches;
    var n := |categories| - 1;
    var init, code := categories[..n], categories[n].0;
    var earlier, last := MatchingAny(rows, init, now, grace), Matching(rows, code, now, grace);
    forall id | id in rows
      ensures id in MatchingAny(rows, categories, now, grace) <==> id in earlier + last
      ensures !(id in earlier && id in last)
    {
      if id in earlier {
        var i :| 0 <= i < n && Matches(init[i].0, rows[id], now, grace);
        assert Matches(categories[i].0, rows[id], now, grace);
        FlagIsTheVerdict(categories[i].0, rows[id], now, grace);
      }
      if i :| 0 <= i < |categories| && Matches(categories[i].0, rows[id], now, grace) {
        if i < n {
          assert Matches(init[i].0, rows[id], now, grace);
        }
      }
    }
    assert MatchingAny(rows, categories, now, grace) == earlier + last;
    assert earlier !! last;
  }

  /** Every row strictly past its date is counted once, and nothing else is. */
  lemma EveryOverdueRowIsCountedOnce(rows: map<nat, Subscription>, now: Time, grace: nat)
    ensures CountOf(Reports(rows, CATEGORIES, now, grace)) == |Overdue(rows, now, grace)|
  {
    hide Matches, Reports, CountOf, Due;
    ReportsCountRows(rows, CATEGORIES, now, grace);
    CategoriesSayWhetherTheyGrant();
    forall id | id in rows
      ensures id in MatchingAny(rows, CATEGORIES, now, grace) <==> id in Overdue(rows, now, grace)
    {
      ReportedWhenOverdue(rows[id], now, grace);
      if code :| Matches(code, rows[id], now, grace) {
        assert code != MultipleLiveSubscriptions by { NeverMatched(rows[id], now, grace); }
        CategoryListed(code);
        var i :| 0 <= i < |CATEGORIES| && CATEGORIES[i].0 == code;
        assert Matches(CATEGORIES[i].0, rows[id], now, grace);
      }
    }
    assert MatchingAny(rows, CATEGORIES, now, grace) == Overdue(rows, now, grace);
  }

  lemma NeverMatched(s: Subscription, now: Time, grace: nat)
    ensures !Matches(MultipleLiveSubscriptions, s, now, grace)
  {
  }

  /** What a finding says of the ids behind it: how many they are, and the five smallest. */
  ghost predicate Describes(f: Finding, ids: set<nat>) {
    && f.count == |ids| > 0
    && |f.examples| == (if |ids| < 5 then |ids| else 5)
    && (forall k :: 0 <= k < |f.examples| ==> f.examples[k] in ids)
    && (forall k, l :: 0 <= k < l < |f.examples| ==> f.examples[k] < f.examples[l])
    && (forall id, k :: id in ids && id !in f.examples && 0 <= k < |f.examples| ==> f.examples[k] < id)
  }

  lemma ReportDescribes(code: Code, grantsAccess: bool, ids: set<nat>)
    requires ids != {}
    ensures |Report(code, grantsAccess, ids)| == 1 && Describes(Report(code, grantsAccess, ids)[0], ids)
    ensures Report(code, grantsAccess, ids)[0].code == code
    ensures Report(code, grantsAccess, ids)[0].grantsAccess == grantsAccess
  {
    var f, all := Report(code, grantsAccess, ids)[0], Ascend(ids);
    forall k | 0 <= k < |f.examples|
      ensures f.examples[k] == all[k] && f.examples[k] in ids
    {
      assert all[k] in all;
    }
    forall id, k | id in ids && id !in f.examples && 0 <= k < |f.examples|
      ensures f.examples[k] < id
    {
      var i :| 0 <= i < |all| && all[i] == id;
      assert forall m :: 0 <= m < |f.examples| ==> f.examples[m] != id;
    }
  }

  /** The ids a category is about: users for the duplicates, rows for the rest. */
  function Behind(rows: map<nat, Subscription>, code: Code, now: Time, grace: nat): set<nat> {
    if code == MultipleLiveSubscriptions then Duplicated(rows) else Matching(rows, code, now, grace)
  }

  lemma {:induction false} ReportsDescribe(rows: map<nat, Subscription>, categories: seq<(Code, bool)>,
                                           now: Time, grace: nat, code: Code)
    requires forall i :: 0 <= i < |categories| ==>
               categories[i].0 != MultipleLiveSubscriptions && categories[i].1 == GrantsAccess(categories[i].0)
    ensures forall f :: f in Reports(rows, categories, now, grace) ==>
              Describes(f, Behind(rows, f.code, now, grace)) && f.grantsAccess == GrantsAccess(f.code)
    ensures (exists i :: 0 <= i < |categories| && categories[i].0 == code) && Behind(rows, code, now, grace) != {} ==>
              exists f :: f in Reports(rows, categories, now, grace) && f.code == code
  {
    hide Matching, Duplicated, Describes, Report;
    if categories != [] {
      var n := |categories| - 1;
      var (last, grants) := categories[n];
      ReportsDescribe(rows, categories[..n], now, grace, code);
      assert forall i :: 0 <= i < n ==> categories[..n][i] == categories[i];
      var ids := Matching(rows, last, now, grace);
      if ids != {} {
        ReportDescribes(last, grants, ids);
        var f := Report(last, grants, ids)[0];
        assert Reports(rows, categories, now, grace) == Reports(rows, categories[..n], now, grace) + [f];
      } else {
        NothingToReport(last, grants);
        assert Reports(rows, categories, now, grace) == Reports(rows, categories[..n], now, grace);
      }
    }
  }

  lemma NothingToReport(code: Code, grantsAccess: bool)
    ensures Report(code, grantsAccess, {}) == []
  {
  }

  /** A category is in the report exactly when something is behind it, with the right count, examples and flag. */
  lemma FindingsDescribeTheirRows(rows: map<nat, Subscription>, now: Time, grace: nat, code: Code)
    ensures forall f :: f in Findings(rows, now, grace) ==>
              Describes(f, Behind(rows, f.code, now, grace)) && f.grantsAccess == GrantsAccess(f.code)
    ensures Behind(rows, code, now, grace) != {} <==> exists f :: f in Findings(rows, now, grace) && f.code == code
  {
    hide Matching, Duplicated, Describes, Report, Reports;
    CategoriesSayWhetherTheyGrant();
    NoDuplicatesListed();
    ReportsDescribe(rows, CATEGORIES, now, grace, code);
    if code != MultipleLiveSubscriptions {
      CategoryListed(code);
    }
    var ids := Duplicated(rows);
    var last := Report(MultipleLiveSubscriptions, true, ids);
    if ids != {} {
      ReportDescribes(MultipleLiveSubscriptions, true, ids);
      assert last[0] in Findings(rows, now, grace);
    } else {
      NothingToReport(MultipleLiveSubscriptions, true);
    }
    if f :| f in Findings(rows, now, grace) && f.code == code {
      DescribedIsNotEmpty(f, Behind(rows, f.code, now, grace));
    }
  }

  lemma NoDuplicatesListed()
    ensures forall i :: 0 <= i < |CATEGORIES| ==> CATEGORIES[i].0 != MultipleLiveSubscriptions
  {
    assert CATEGORIES[0].0 == ActivePastPeriod && CATEGORIES[1].0 == TrialingPastEnd;
    assert CATEGORIES[2].0 == PastDueBeyondGrace && CATEGORIES[3].0 == CanceledPastPeriod;
  }

  lemma DescribedIsNotEmpty(f: Finding, ids: set<nat>)
    requires Describes(f, ids)
    ensures ids != {}
  {
  }

  /** The duplicate finding appears exactly when some user has two live rows. */
  lemma DuplicatesReportedExactly(rows: map<nat, Subscription>)
    ensures Duplicated(rows) != {} <==>
            exists i, j :: i in rows && j in rows && i != j && rows[i].user == rows[j].user
                           && IsLive(rows[i].status) && IsLive(rows[j].status)
  {
    if u :| u in Duplicated(rows) {
      var live := LiveRows(rows, u);
      var i :| i in live;
      assert live - {i} != {} by { assert |live - {i}| == |live| - 1; }
      var j :| j in live - {i};
      assert i in rows && j in rows;
    }
    if i, j :| i in rows && j in rows && i != j && rows[i].user == rows[j].user
               && IsLive(rows[i].status) && IsLive(rows[j].status) {
      var live := LiveRows(rows, rows[i].user);
      assert {i, j} <= live;
      assert |live - {i, j}| == |live| - |{i, j}|;
      assert rows[i].user in Duplicated(rows);
    }
  }
}
