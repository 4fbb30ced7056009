/** Which problems the checker of sharded tests reports, each by what it means of the reports. */
module SuiteReports {
  import opened Sequences
  import opened SuiteCheck

  // --- One shard ---

  /** The test is among those that ran. */
  predicate HasRun(r: Report, node: string) {
    exists k :: 0 <= k < |r.ran| && r.ran[k].node == node
  }

  predicate HasRunTwice(r: Report, node: string) {
    exists j, k :: 0 <= j < k < |r.ran| && r.ran[j].node == r.ran[k].node == node
  }

  ghost function NotRunOf(r: Report): set<string> {
    set x | x in r.selected && !HasRun(r, x)
  }

  ghost function StrayOf(r: Report, expected: set<string>): set<string> {
    set x | x in r.selected && x !in expected
  }

  function NodesOf(ran: seq<Record>): seq<string> {
    seq(|ran|, k requires 0 <= k < |ran| => ran[k].node)
  }

  ghost function TwiceOf(r: Report): set<string> {
    set x | x in NodesOf(r.ran) && HasRunTwice(r, x)
  }

  ghost function ExtraOf(r: Report): set<string> {
    set x | x in NodesOf(r.ran) && x !in r.selected
  }

  /** What is wrong with one test's outcome: a skip for a reason that is not allowed, a test that never
      finished, or one that neither passed nor failed as expected. */
  predicate OutcomeHas(shard: nat, record: Record, allowed: Allowed, p: Problem) {
    match record.outcome
    case Passed => false
    case Xfailed => false
    case Skipped =>
      allowed.Some? && p.SkipNotAllowed? && p.shard == shard && p.node == record.node
      && p.reason == (if record.skipReason.Some? then record.skipReason.value else "") && p.reason !in allowed.value
    case Unfinished => p == NeverFinished(shard, record.node)
    case Failed => p == BadOutcome(shard, record.node, Failed)
    case Xpassed => p == BadOutcome(shard, record.node, Xpassed)
    case Error => p == BadOutcome(shard, record.node, Error)
  }

  /** A way in which the session was narrowed. */
  predicate NarrowsBy(s: Session, plugins: set<string>, n: Narrowing) {
    match n
    case MarkExpr => s.markexpr != ""
    case Keyword => s.keyword != ""
    case Deselect => s.deselect != []
    case Ignore => s.ignore != []
    case IgnoreGlob => s.ignoreGlob != []
    case LastFailed => s.lastFailed
    case PreDeselected => s.preDeselected != 0
    case Unannounced => s.unannounced != []
    case Fabricated => s.fabricated != []
    case DisabledPlugins(found) => found != [] && found == Filter(s.disabledPlugins, p => p !in plugins)
    case AutoloadDisabled => s.autoloadDisabled
  }

  /** What is wrong with one shard's report. */
  ghost predicate ShardHas(r: Report, expected: set<string>, allowed: Allowed, plugins: set<string>, p: Problem) {
    match p
    case SelectedNothing(shard) => shard == r.shard && r.selected == []
    case SelectedStray(shard, nodes) =>
      shard == r.shard && nodes != {} && nodes == StrayOf(r, expected)
    case Narrowed(shard, how) =>
      shard == r.shard && how != [] && how == NarrowedBy(r.session, plugins)
    case CollectErrors(shard) => shard == r.shard && r.collectErrors != []
    case NotRun(shard, nodes) => shard == r.shard && nodes != {} && nodes == NotRunOf(r)
    case RanTwice(shard, nodes) => shard == r.shard && nodes != {} && nodes == TwiceOf(r)
    case RanExtra(shard, nodes) => shard == r.shard && nodes != {} && nodes == ExtraOf(r)
    case SkipNotAllowed(_, _, _) => exists k :: 0 <= k < |r.ran| && OutcomeHas(r.shard, r.ran[k], allowed, p)
    case NeverFinished(_, _) => exists k :: 0 <= k < |r.ran| && OutcomeHas(r.shard, r.ran[k], allowed, p)
    case BadOutcome(_, _, _) => exists k :: 0 <= k < |r.ran| && OutcomeHas(r.shard, r.ran[k], allowed, p)
    case _ => false
  }

  lemma {:induction false} RanIdsAre(ran: seq<Record>)
    ensures RanIds(ran) == multiset(NodesOf(ran))
  {
    if ran != [] {
      var n := |ran| - 1;
      RanIdsAre(ran[..n]);
      assert NodesOf(ran) == NodesOf(ran[..n]) + [ran[n].node];
    }
  }

  lemma {:induction false} TwoOf(s: seq<string>, x: string)
    ensures multiset(s)[x] > 0 <==> exists k :: 0 <= k < |s| && s[k] == x
    ensures multiset(s)[x] > 1 <==> exists j, k :: 0 <= j < k < |s| && s[j] == s[k] == x
  {
    if s != [] {
      var n := |s| - 1;
      TwoOf(s[..n], x);
      assert s == s[..n] + [s[n]];
      assert forall k :: 0 <= k < n ==> s[..n][k] == s[k];
      if s[n] == x && multiset(s[..n])[x] > 0 {
        var j :| 0 <= j < n && s[..n][j] == x;
        assert s[j] == s[n] == x;
      }
      if exists j, k :: 0 <= j < k < |s| && s[j] == s[k] == x {
        var j, k :| 0 <= j < k < |s| && s[j] == s[k] == x;
        assert s[..n][j] == x;
        assert k < n ==> s[..n][k] == x;
      }
      if exists j, k :: 0 <= j < k < n && s[..n][j] == s[..n][k] == x {
        var j, k :| 0 <= j < k < n && s[..n][j] == s[..n][k] == x;
        assert s[j] == s[k] == x;
      }
    }
  }

  lemma RunsAre(r: Report)
    ensures var runs := RanIds(r.ran);
            && ToSet(r.selected) - Keys(runs) == NotRunOf(r)
            && Repeated(runs) == TwiceOf(r)
            && Keys(runs) - ToSet(r.selected) == ExtraOf(r)
  {
    hide RanIds;
    RanIdsAre(r.ran);
    var nodes := NodesOf(r.ran);
    forall x
      ensures x in RanIds(r.ran) <==> HasRun(r, x)
      ensures x in RanIds(r.ran) <==> x in nodes
      ensures RanIds(r.ran)[x] > 1 <==> HasRunTwice(r, x)
    {
      TwoOf(nodes, x);
      RunIs(r, x);
    }
  }

  lemma RunIs(r: Report, x: string)
    ensures var nodes := NodesOf(r.ran);
            && (HasRun(r, x) <==> exists k :: 0 <= k < |nodes| && nodes[k] == x)
            && (HasRunTwice(r, x) <==> exists j, k :: 0 <= j < k < |nodes| && nodes[j] == nodes[k] == x)
  {
    var nodes := NodesOf(r.ran);
    assert forall k :: 0 <= k < |nodes| ==> nodes[k] == r.ran[k].node;
    if HasRun(r, x) {
      var k :| 0 <= k < |r.ran| && r.ran[k].node == x;
      assert nodes[k] == x;
    }
    if HasRunTwice(r, x) {
      var j, k :| 0 <= j < k < |r.ran| && r.ran[j].node == r.ran[k].node == x;
      assert nodes[j] == nodes[k] == x;
    }
  }

  lemma {:induction false} OutcomesAre(shard: nat, ran: seq<Record>, allowed: Allowed, p: Problem)
    ensures p in OutcomesProblems(shard, ran, allowed)
            <==> exists k :: 0 <= k < |ran| && OutcomeHas(shard, ran[k], allowed, p)
  {
    hide OutcomeProblems, OutcomeHas;
    if ran != [] {
      var n := |ran| - 1;
      OutcomesAre(shard, ran[..n], allowed, p);
      OneOutcomeIs(shard, ran[n], allowed, p);
      assert forall k :: 0 <= k < n ==> ran[..n][k] == ran[k];
    }
  }

  lemma OneOutcomeIs(shard: nat, record: Record, allowed: Allowed, p: Problem)
    ensures p in OutcomeProblems(shard, record, allowed) <==> OutcomeHas(shard, record, allowed, p)
  {
  }

  lemma OutcomeKinds(shard: nat, record: Record, allowed: Allowed, p: Problem)
    requires OutcomeHas(shard, record, allowed, p)
    ensures p.SkipNotAllowed? || p.NeverFinished? || p.BadOutcome?
  {
  }

  lemma ShardReportedIs(r: Report, expected: set<string>, allowed: Allowed, plugins: set<string>, p: Problem)
    ensures p in ShardProblems(r, expected, allowed, plugins) <==> ShardHas(r, expected, allowed, plugins, p)
  {
    hide OutcomesProblems, OutcomeHas, RanIds, Keys, Repeated, NotRunOf, TwiceOf, ExtraOf, NarrowedBy, Only;
    RunsAre(r);
    OutcomesAre(r.shard, r.ran, allowed, p);
    if exists k :: 0 <= k < |r.ran| && OutcomeHas(r.shard, r.ran[k], allowed, p) {
      var k :| 0 <= k < |r.ran| && OutcomeHas(r.shard, r.ran[k], allowed, p);
      OutcomeKinds(r.shard, r.ran[k], allowed, p);
    }
    assert ToSet(r.selected) - expected == StrayOf(r, expected);
    OnlyHas(p);
  }

  lemma OnlyHas<T(!new)>(x: T)
    ensures forall y: T, when: bool :: x in Only(y, when) <==> when && x == y
  {
  }

  /** All the ways a session was narrowed are named, in one order. */
  lemma NarrowedIs(s: Session, plugins: set<string>, n: Narrowing)
    ensures n in NarrowedBy(s, plugins) <==> NarrowsBy(s, plugins, n)
  {
    hide Filter, Disabled, Only;
    OnlyHas(n);
    DisabledIs(s.disabledPlugins, plugins);
  }

  lemma {:induction false} DisabledIs(found: seq<string>, plugins: set<string>)
    ensures Disabled(found, plugins) == Filter(found, p => p !in plugins)
  {
    if found != [] {
      DisabledIs(found[..|found| - 1], plugins);
    }
  }

  // --- All shards ---

  function ReportedAs(rs: seq<Report>, index: nat): set<nat> {
    set k: nat | k < |rs| && rs[k].shard == index
  }

  predicate Ascends(s: seq<nat>) {
    forall j, k :: 0 <= j < k < |s| ==> s[j] < s[k]
  }

  /** The numbers up to `total` that no report has, in order. */
  ghost predicate AreMissing(rs: seq<Report>, total: nat, indexes: seq<nat>) {
    && Ascends(indexes)
    && forall i: nat :: i in indexes <==> 1 <= i <= total && forall k :: 0 <= k < |rs| ==> rs[k].shard != i
  }

  ghost predicate SomeShardHas(rs: seq<Report>, expected: set<string>, allowed: Allowed, plugins: set<string>,
                               p: Problem) {
    exists k :: 0 <= k < |rs| && ShardHas(rs[k], expected, allowed, plugins, p)
  }

  ghost function UnselectedOf(rs: seq<Report>, collected: seq<string>): set<string> {
    set x | x in collected && forall k :: 0 <= k < |rs| ==> x !in rs[k].selected
  }

  predicate IsSelectedTwice(rs: seq<Report>, x: string) {
    exists j, k :: 0 <= j < k < |rs| && x in rs[j].selected && x in rs[k].selected
  }

  predicate IsCollectedTwice(collected: seq<string>, x: string) {
    exists j, k :: 0 <= j < k < |collected| && collected[j] == collected[k] == x
  }

  /** What is reported of a suite: nothing but that there is no report, or that the reports disagree
      about their number; else each problem of the numbers, of what was collected, of each shard, and of
      what was selected by none or by several. */
  ghost predicate SuiteHas(rs: seq<Report>, allowed: Allowed, plugins: set<string>, p: Problem) {
    if rs == [] then p == NoReport
    else if exists k :: 0 <= k < |rs| && rs[k].of != rs[0].of then p == DisagreeOnCount
    else
      var total, collected := rs[0].of, rs[0].collected;
      match p
      case NoReport => false
      case DisagreeOnCount => false
      case BeyondCount(index) => index > total && ReportedAs(rs, index) != {}
      case ReportedTimes(index, times) => times == |ReportedAs(rs, index)| > 1
      case MissingShards(indexes) => indexes != [] && AreMissing(rs, total, indexes)
      case CollectedDifferently(shard) =>
        exists k :: 0 <= k < |rs| && rs[k].shard == shard && rs[k].collected != collected
      case CollectedNothing => collected == []
      case CollectedTwice(nodes) => nodes != {} && forall x :: x in nodes <==> IsCollectedTwice(collected, x)
      case SelectedByNone(nodes) => nodes != {} && nodes == UnselectedOf(rs, collected)
      case SelectedBySeveral(nodes) => nodes != {} && forall x :: x in nodes <==> IsSelectedTwice(rs, x)
      case _ => SomeShardHas(rs, ToSet(collected), allowed, plugins, p)
  }

  lemma {:induction false} TimesAre(rs: seq<Report>, index: nat)
    ensures TimesReported(rs, index) == |ReportedAs(rs, index)|
  {
    if rs != [] {
      var n := |rs| - 1;
      TimesAre(rs[..n], index);
      assert ReportedAs(rs, index) == ReportedAs(rs[..n], index) + if rs[n].shard == index then {n} else {};
    }
  }

  lemma {:induction false} IndexesAre(rs: seq<Report>, total: nat, upTo: nat, p: Problem)
    ensures p in IndexProblems(rs, total, upTo) <==>
            match p
            case BeyondCount(index) => 1 <= index <= upTo && index > total && TimesReported(rs, index) > 0
            case ReportedTimes(index, times) => 1 <= index <= upTo && times == TimesReported(rs, index) > 1
            case _ => false
  {
    hide TimesReported;
    if upTo > 0 {
      IndexesAre(rs, total, upTo - 1, p);
    }
  }

  lemma {:induction false} MissingAre(rs: seq<Report>, total: nat)
    ensures var missing := Missing(rs, total);
            && Ascends(missing)
            && forall i: nat :: i in missing <==> 1 <= i <= total && TimesReported(rs, i) == 0
  {
    hide TimesReported;
    if total > 0 {
      MissingAre(rs, total - 1);
      var rest := Missing(rs, total - 1);
      assert forall j :: 0 <= j < |rest| ==> rest[j] in rest;
    }
  }

  lemma NothingIn(b: seq<nat>)
    ensures b == [] <==> forall i: nat :: i !in b
  {
    assert b == [] || b[0] in b;
  }

  lemma LastIsMost(a: seq<nat>, i: nat)
    requires a != [] && Ascends(a) && i in a
    ensures i <= a[|a| - 1] && a[|a| - 1] in a
  {
  }

  /** There is one such list. */
  lemma {:induction false} OneList(a: seq<nat>, b: seq<nat>)
    requires Ascends(a) && Ascends(b) && forall i: nat :: i in a <==> i in b
    ensures a == b
  {
    hide Ascends;
    NothingIn(a);
    NothingIn(b);
    if a != [] {
      var m, n := |a| - 1, |b| - 1;
      LastIsMost(a, a[m]);
      LastIsMost(b, a[m]);
      LastIsMost(b, b[n]);
      LastIsMost(a, b[n]);
      AscendsInit(a);
      AscendsInit(b);
      forall i: nat ensures i in a[..m] <==> i in b[..n] {
        LessLast(a, i);
        LessLast(b, i);
      }
      OneList(a[..m], b[..n]);
      assert a == a[..m] + [a[m]] && b == b[..n] + [b[n]];
    }
  }

  lemma AscendsInit(a: seq<nat>)
    requires a != [] && Ascends(a)
    ensures Ascends(a[..|a| - 1])
  {
  }

  lemma LessLast(a: seq<nat>, i: nat)
    requires a != [] && Ascends(a)
    ensures i in a[..|a| - 1] <==> i in a && i != a[|a| - 1]
  {
    if i in a && i != a[|a| - 1] {
      var k :| 0 <= k < |a| && a[k] == i;
      assert a[..|a| - 1][k] == i;
    }
  }

  lemma NotReported(rs: seq<Report>, index: nat)
    ensures TimesReported(rs, index) == 0 <==> forall k :: 0 <= k < |rs| ==> rs[k].shard != index
    ensures TimesReported(rs, index) > 0 <==> ReportedAs(rs, index) != {}
  {
    TimesAre(rs, index);
    var found := ReportedAs(rs, index);
    if exists k :: 0 <= k < |rs| && rs[k].shard == index {
      var k :| 0 <= k < |rs| && rs[k].shard == index;
      assert k in found;
    }
    assert found != {} ==> exists k :: k in found;
    assert |found| == 0 <==> found == {};
  }

  lemma MissingIs(rs: seq<Report>, total: nat, indexes: seq<nat>)
    ensures AreMissing(rs, total, indexes) <==> indexes == Missing(rs, total)
  {
    hide TimesReported, Missing;
    MissingAre(rs, total);
    forall i: nat ensures TimesReported(rs, i) == 0 <==> forall k :: 0 <= k < |rs| ==> rs[k].shard != i {
      NotReported(rs, i);
    }
    if AreMissing(rs, total, indexes) {
      OneList(indexes, Missing(rs, total));
    }
  }

  lemma {:induction false} CollectedAre(rs: seq<Report>, collected: seq<string>, p: Problem)
    ensures p in CollectedProblems(rs, collected) <==>
            p.CollectedDifferently?
            && exists k :: 0 <= k < |rs| && rs[k].shard == p.shard && rs[k].collected != collected
  {
    if rs != [] {
      var n := |rs| - 1;
      CollectedAre(rs[..n], collected, p);
      assert forall k :: 0 <= k < n ==> rs[..n][k] == rs[k];
    }
  }

  lemma {:induction false} ShardsAre(rs: seq<Report>, expected: set<string>, allowed: Allowed, plugins: set<string>,
                                     p: Problem)
    ensures p in ShardsProblems(rs, expected, allowed, plugins) <==> SomeShardHas(rs, expected, allowed, plugins, p)
  {
    hide ShardProblems, ShardHas;
    if rs != [] {
      var n := |rs| - 1;
      ShardsAre(rs[..n], expected, allowed, plugins, p);
      ShardReportedIs(rs[n], expected, allowed, plugins, p);
      assert forall k :: 0 <= k < n ==> rs[..n][k] == rs[k];
    }
  }

  lemma ShardKinds(r: Report, expected: set<string>, allowed: Allowed, plugins: set<string>, p: Problem)
    requires ShardHas(r, expected, allowed, plugins, p)
    ensures !p.NoReport? && !p.DisagreeOnCount? && !p.BeyondCount? && !p.ReportedTimes? && !p.MissingShards?
    ensures !p.CollectedDifferently? && !p.CollectedNothing? && !p.CollectedTwice? && !p.SelectedByNone?
    ensures !p.SelectedBySeveral?
  {
  }

  lemma {:induction false} SeveralAre(rs: seq<Report>, x: string)
    ensures x in Several(Seen(rs)) <==> IsSelectedTwice(rs, x)
    ensures x in Seen(rs) <==> exists k :: 0 <= k < |rs| && x in rs[k].selected
    ensures x in Seen(rs) ==> Seen(rs)[x] >= 1
  {
    if rs != [] {
      var n := |rs| - 1;
      SeveralAre(rs[..n], x);
      assert forall k :: 0 <= k < n ==> rs[..n][k] == rs[k];
      TwiceSplits(rs, x);
    }
  }

  lemma TwiceSplits(rs: seq<Report>, x: string)
    requires rs != []
    ensures var n := |rs| - 1;
            IsSelectedTwice(rs, x) <==>
            IsSelectedTwice(rs[..n], x) || (x in rs[n].selected && exists k :: 0 <= k < n && x in rs[k].selected)
  {
    var n := |rs| - 1;
    if IsSelectedTwice(rs[..n], x) {
      var j, k :| 0 <= j < k < n && x in rs[..n][j].selected && x in rs[..n][k].selected;
      assert x in rs[j].selected && x in rs[k].selected;
    }
    if IsSelectedTwice(rs, x) {
      var j, k :| 0 <= j < k < |rs| && x in rs[j].selected && x in rs[k].selected;
      assert k < n ==> x in rs[..n][j].selected && x in rs[..n][k].selected;
    }
  }

  lemma SetsAre(rs: seq<Report>, collected: seq<string>, nodes: set<string>)
    ensures ToSet(collected) - Seen(rs).Keys == UnselectedOf(rs, collected)
    ensures nodes == Several(Seen(rs)) <==> forall x :: x in nodes <==> IsSelectedTwice(rs, x)
    ensures nodes == Repeated(multiset(collected)) <==> forall x :: x in nodes <==> IsCollectedTwice(collected, x)
  {
    hide Seen, Several, IsSelectedTwice, IsCollectedTwice;
    forall x
      ensures x in Several(Seen(rs)) <==> IsSelectedTwice(rs, x)
      ensures x in Seen(rs) <==> exists k :: 0 <= k < |rs| && x in rs[k].selected
      ensures x in Repeated(multiset(collected)) <==> IsCollectedTwice(collected, x)
    {
      SeveralAre(rs, x);
      RepeatedIs(collected, x);
    }
  }

  lemma RepeatedIs(collected: seq<string>, x: string)
    ensures x in Repeated(multiset(collected)) <==> IsCollectedTwice(collected, x)
  {
    TwoOf(collected, x);
  }

  /** One of the lists of problems has it. */
  lemma OneOfTheLists(rs: seq<Report>, allowed: Allowed, plugins: set<string>, p: Problem)
    requires rs != [] && forall r :: r in rs ==> r.of == rs[0].of
    ensures var total, collected := rs[0].of, rs[0].collected;
            var expected, seen := ToSet(collected), Seen(rs);
            p in SuiteProblems(rs, allowed, plugins) <==>
            || p in IndexProblems(rs, total, MaxIndex(rs))
            || (Missing(rs, total) != [] && p == MissingShards(Missing(rs, total)))
            || p in CollectedProblems(rs, collected)
            || (collected == [] && p == CollectedNothing)
            || (Repeated(multiset(collected)) != {} && p == CollectedTwice(Repeated(multiset(collected))))
            || p in ShardsProblems(rs, expected, allowed, plugins)
            || (expected - seen.Keys != {} && p == SelectedByNone(expected - seen.Keys))
            || (Several(seen) != {} && p == SelectedBySeveral(Several(seen)))
  {
    hide IndexProblems, Missing, CollectedProblems, Repeated, ShardsProblems, Seen, Several, MaxIndex, Only, ToSet;
    OnlyHas(p);
  }

  /** A problem is reported exactly when the suite's reports have it. */
  lemma ReportedIs(rs: seq<Report>, allowed: Allowed, plugins: set<string>, p: Problem)
    ensures p in SuiteProblems(rs, allowed, plugins) <==> SuiteHas(rs, allowed, plugins, p)
  {
    hide SomeShardHas, UnselectedOf, AreMissing, IsSelectedTwice, IsCollectedTwice, ReportedAs, SuiteProblems;
    if rs == [] || exists k :: 0 <= k < |rs| && rs[k].of != rs[0].of {
      AtOnce(rs, allowed, plugins, p);
    } else {
      AgreedIs(rs, allowed, plugins, p);
    }
  }

  lemma AtOnce(rs: seq<Report>, allowed: Allowed, plugins: set<string>, p: Problem)
    requires rs == [] || exists k :: 0 <= k < |rs| && rs[k].of != rs[0].of
    ensures SuiteProblems(rs, allowed, plugins) == if rs == [] then [NoReport] else [DisagreeOnCount]
  {
    if rs != [] {
      AgreeIs(rs);
    }
  }

  lemma AgreedIs(rs: seq<Report>, allowed: Allowed, plugins: set<string>, p: Problem)
    requires rs != [] && forall k :: 0 <= k < |rs| ==> rs[k].of == rs[0].of
    ensures p in SuiteProblems(rs, allowed, plugins) <==> SuiteHas(rs, allowed, plugins, p)
  {
    hide IndexProblems, Missing, CollectedProblems, Repeated, ShardsProblems, Seen, Several, MaxIndex, TimesReported;
    hide SomeShardHas, UnselectedOf, AreMissing, IsSelectedTwice, IsCollectedTwice, ReportedAs, SuiteProblems;
    AgreeIs(rs);
    OneOfTheLists(rs, allowed, plugins, p);
    var total, collected := rs[0].of, rs[0].collected;
    IndexesAre(rs, total, MaxIndex(rs), p);
    CollectedAre(rs, collected, p);
    ShardsAre(rs, ToSet(collected), allowed, plugins, p);
    NoShardHas(rs, ToSet(collected), allowed, plugins, p);
    match p
    case BeyondCount(index) => IndexIs(rs, index);
    case ReportedTimes(index, _) => IndexIs(rs, index);
    case MissingShards(indexes) => MissingIs(rs, total, indexes);
    case CollectedTwice(nodes) => SetsAre(rs, collected, nodes);
    case SelectedByNone(nodes) => SetsAre(rs, collected, nodes);
    case SelectedBySeveral(nodes) => SetsAre(rs, collected, nodes);
    case _ =>
  }

  lemma AgreeIs(rs: seq<Report>)
    requires rs != []
    ensures (exists r :: r in rs && r.of != rs[0].of) <==> exists k :: 0 <= k < |rs| && rs[k].of != rs[0].of
  {
    if exists k :: 0 <= k < |rs| && rs[k].of != rs[0].of {
      var k :| 0 <= k < |rs| && rs[k].of != rs[0].of;
      assert rs[k] in rs;
    }
  }

  lemma IndexIs(rs: seq<Report>, index: nat)
    ensures TimesReported(rs, index) == |ReportedAs(rs, index)|
    ensures TimesReported(rs, index) > 0 <==> ReportedAs(rs, index) != {}
    ensures TimesReported(rs, index) > 0 ==> 1 <= index <= MaxIndex(rs)
  {
    TimesAre(rs, index);
    NotReported(rs, index);
    OnlyReported(rs, index);
  }

  lemma NoShardHas(rs: seq<Report>, expected: set<string>, allowed: Allowed, plugins: set<string>, p: Problem)
    ensures SomeShardHas(rs, expected, allowed, plugins, p) ==>
              !p.NoReport? && !p.DisagreeOnCount? && !p.BeyondCount? && !p.ReportedTimes? && !p.MissingShards?
              && !p.CollectedDifferently? && !p.CollectedNothing? && !p.CollectedTwice? && !p.SelectedByNone?
              && !p.SelectedBySeveral?
  {
    hide ShardHas;
    if SomeShardHas(rs, expected, allowed, plugins, p) {
      var k :| 0 <= k < |rs| && ShardHas(rs[k], expected, allowed, plugins, p);
      ShardKinds(rs[k], expected, allowed, plugins, p);
    }
  }
}
