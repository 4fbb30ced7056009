/** The checker of a sharded test suite (`check_test_shards.py`): every collected test ran
    exactly once. */
module SuiteCheck {
  import opened Wrappers
  import opened Sequences

  datatype Outcome = Passed | Failed | Skipped | Xfailed | Xpassed | Error | Unfinished

  datatype Record = Record(node: string, outcome: Outcome, skipReason: Option<string>)

  /** What could have narrowed a session. */
  datatype Session = Session(
    markexpr: string, keyword: string,
    deselect: seq<string>, ignore: seq<string>, ignoreGlob: seq<string>,
    lastFailed: bool, preDeselected: nat,
    unannounced: seq<string>, fabricated: seq<string>,
    disabledPlugins: seq<string>, autoloadDisabled: bool)

  type Positive = n: nat | n >= 1 witness 1

  /** One shard's report, as loading accepts it. */
  datatype Report = Report(
    shard: Positive, of: Positive,
    collected: seq<string>, selected: seq<string>, ran: seq<Record>,
    collectErrors: seq<string>, session: Session)

  /** The skip reasons allowed; None leaves a suite's skips unconstrained. */
  type Allowed = Option<set<string>>

  datatype Narrowing =
    | MarkExpr | Keyword | Deselect | Ignore | IgnoreGlob | LastFailed | PreDeselected
    | Unannounced | Fabricated | DisabledPlugins(plugins: seq<string>) | AutoloadDisabled

  datatype Problem =
    | NoReport
    | DisagreeOnCount
    | BeyondCount(index: nat)
    | ReportedTimes(index: nat, times: nat)
    | MissingShards(indexes: seq<nat>)
    | CollectedDifferently(shard: nat)
    | CollectedNothing
    | CollectedTwice(nodes: set<string>)
    | SelectedNothing(shard: nat)
    | SelectedStray(shard: nat, nodes: set<string>)
    | Narrowed(shard: nat, how: seq<Narrowing>)
    | CollectErrors(shard: nat)
    | NotRun(shard: nat, nodes: set<string>)
    | RanTwice(shard: nat, nodes: set<string>)
    | RanExtra(shard: nat, nodes: set<string>)
    | SkipNotAllowed(shard: nat, node: string, reason: string)
    | NeverFinished(shard: nat, node: string)
    | BadOutcome(shard: nat, node: string, outcome: Outcome)
    | SelectedByNone(nodes: set<string>)
    | SelectedBySeveral(nodes: set<string>)

  // --- One shard ---

  function Disabled(plugins: seq<string>, allowed: set<string>): seq<string> {
    if plugins == [] then []
    else Disabled(plugins[..|plugins| - 1], allowed) +
         (if plugins[|plugins| - 1] in allowed then [] else [plugins[|plugins| - 1]])
  }

  function NarrowedBy(s: Session, plugins: set<string>): seq<Narrowing> {
    Only(MarkExpr, s.markexpr != "") +
    Only(Keyword, s.keyword != "") +
    Only(Deselect, s.deselect != []) +
    Only(Ignore, s.ignore != []) +
    Only(IgnoreGlob, s.ignoreGlob != []) +
    Only(LastFailed, s.lastFailed) +
    Only(PreDeselected, s.preDeselected != 0) +
    Only(Unannounced, s.unannounced != []) +
    Only(Fabricated, s.fabricated != []) +
    Only(DisabledPlugins(Disabled(s.disabledPlugins, plugins)), Disabled(s.disabledPlugins, plugins) != []) +
    Only(AutoloadDisabled, s.autoloadDisabled)
  }

  /** The ids that ran, as often as they did. */
  function RanIds(ran: seq<Record>): multiset<string> {
    if ran == [] then multiset{} else RanIds(ran[..|ran| - 1]) + multiset{ran[|ran| - 1].node}
  }

  function Keys(m: multiset<string>): set<string> {
    set x | x in m
  }

  function Repeated(m: multiset<string>): set<string> {
    set x | x in m && m[x] > 1
  }

  function OutcomeProblems(shard: nat, record: Record, allowed: Allowed): seq<Problem> {
    match record.outcome
    case Passed => []
    case Xfailed => []
    case Skipped =>
      var reason := match record.skipReason case Some(r) => r case None => "";
      Only(SkipNotAllowed(shard, record.node, reason), allowed.Some? && reason !in allowed.value)
    case Unfinished => [NeverFinished(shard, record.node)]
    case outcome => [BadOutcome(shard, record.node, outcome)]
  }

  function OutcomesProblems(shard: nat, ran: seq<Record>, allowed: Allowed): seq<Problem> {
    if ran == [] then []
    else OutcomesProblems(shard, ran[..|ran| - 1], allowed) + OutcomeProblems(shard, ran[|ran| - 1], allowed)
  }

  function RanProblems(r: Report, allowed: Allowed): seq<Problem> {
    var selected, runs := ToSet(r.selected), RanIds(r.ran);
    Only(NotRun(r.shard, selected - Keys(runs)), selected - Keys(runs) != {}) +
    Only(RanTwice(r.shard, Repeated(runs)), Repeated(runs) != {}) +
    Only(RanExtra(r.shard, Keys(runs) - selected), Keys(runs) - selected != {}) +
    OutcomesProblems(r.shard, r.ran, allowed)
  }

  function ShardProblems(r: Report, expected: set<string>, allowed: Allowed, plugins: set<string>): seq<Problem> {
    var stray, narrowed := ToSet(r.selected) - expected, NarrowedBy(r.session, plugins);
    Only(SelectedNothing(r.shard), r.selected == []) +
    Only(SelectedStray(r.shard, stray), stray != {}) +
    Only(Narrowed(r.shard, narrowed), narrowed != []) +
    Only(CollectErrors(r.shard), r.collectErrors != []) +
    RanProblems(r, allowed)
  }

  function ShardsProblems(rs: seq<Report>, expected: set<string>, allowed: Allowed,
                          plugins: set<string>): seq<Problem> {
    if rs == [] then []
    else ShardsProblems(rs[..|rs| - 1], expected, allowed, plugins) +
         ShardProblems(rs[|rs| - 1], expected, allowed, plugins)
  }

  // --- All shards ---

  function TimesReported(rs: seq<Report>, index: nat): nat {
    if rs == [] then 0
    else TimesReported(rs[..|rs| - 1], index) + if rs[|rs| - 1].shard == index then 1 else 0
  }

  function MaxIndex(rs: seq<Report>): (m: nat)
    ensures forall r :: r in rs ==> r.shard <= m
  {
    if rs == [] then 0
    else
      var rest := MaxIndex(rs[..|rs| - 1]);
      assert rs == rs[..|rs| - 1] + [rs[|rs| - 1]];
      if rs[|rs| - 1].shard > rest then rs[|rs| - 1].shard else rest
  }

  /** The reported indexes up to `upTo`, in order. */
  function IndexProblems(rs: seq<Report>, total: nat, upTo: nat): seq<Problem> {
    if upTo == 0 then []
    else
      var times := TimesReported(rs, upTo);
      IndexProblems(rs, total, upTo - 1) +
      Only(BeyondCount(upTo), times > 0 && upTo > total) + Only(ReportedTimes(upTo, times), times > 1)
  }

  function Missing(rs: seq<Report>, total: nat): seq<nat> {
    if total == 0 then []
    else Missing(rs, total - 1) + if TimesReported(rs, total) == 0 then [total] else []
  }

  function CollectedProblems(rs: seq<Report>, collected: seq<string>): seq<Problem> {
    if rs == [] then []
    else CollectedProblems(rs[..|rs| - 1], collected) +
         Only(CollectedDifferently(rs[|rs| - 1].shard), rs[|rs| - 1].collected != collected)
  }

  /** How many shards selected each id. */
  function Seen(rs: seq<Report>): map<string, nat> {
    if rs == [] then map[] else Counted(Seen(rs[..|rs| - 1]), ToSet(rs[|rs| - 1].selected))
  }

  function Counted(seen: map<string, nat>, nodes: set<string>): map<string, nat> {
    map x | x in seen.Keys + nodes ::
      (if x in seen then seen[x] else 0) + (if x in nodes then 1 else 0)
  }

  function Several(seen: map<string, nat>): set<string> {
    set x | x in seen && seen[x] > 1
  }

  function SuiteProblems(rs: seq<Report>, allowed: Allowed, plugins: set<string>): seq<Problem> {
    if rs == [] then [NoReport]
    else if exists r :: r in rs && r.of != rs[0].of then [DisagreeOnCount]
    else
      var total, collected := rs[0].of, rs[0].collected;
      var expected, seen := ToSet(collected), Seen(rs);
      IndexProblems(rs, total, MaxIndex(rs)) +
      Only(MissingShards(Missing(rs, total)), Missing(rs, total) != []) +
      CollectedProblems(rs, collected) +
      Only(CollectedNothing, collected == []) +
      Only(CollectedTwice(Repeated(multiset(collected))), Repeated(multiset(collected)) != {}) +
      ShardsProblems(rs, expected, allowed, plugins) +
      Only(SelectedByNone(expected - seen.Keys), expected - seen.Keys != {}) +
      Only(SelectedBySeveral(Several(seen)), Several(seen) != {})
  }

  // --- The loops ---

  method CountRuns(ran: seq<Record>) returns (runs: multiset<string>)
    ensures runs == RanIds(ran)
  {
    runs := multiset{};
    for k := 0 to |ran|
      invariant runs == RanIds(ran[..k])
    {
      assert ran[..k + 1][..k] == ran[..k];
      runs := runs[ran[k].node := runs[ran[k].node] + 1];
    }
    assert ran[..|ran|] == ran;
  }

  method CheckOutcomes(shard: nat, ran: seq<Record>, allowed: Allowed) returns (problems: seq<Problem>)
    ensures problems == OutcomesProblems(shard, ran, allowed)
  {
    problems := [];
    for k := 0 to |ran|
      invariant problems == OutcomesProblems(shard, ran[..k], allowed)
    {
      assert ran[..k + 1][..k] == ran[..k];
      var record := ran[k];
      if record.outcome == Passed || record.outcome == Xfailed {
        continue;
      }
      if record.outcome == Skipped {
        var reason := match record.skipReason case Some(r) => r case None => "";
        if allowed.None? || reason in allowed.value {
          continue;
        }
        problems := problems + [SkipNotAllowed(shard, record.node, reason)];
      } else if record.outcome == Unfinished {
        problems := problems + [NeverFinished(shard, record.node)];
      } else {
        problems := problems + [BadOutcome(shard, record.node, record.outcome)];
      }
    }
    assert ran[..|ran|] == ran;
  }

  method CheckRan(r: Report, allowed: Allowed) returns (problems: seq<Problem>)
    ensures problems == RanProblems(r, allowed)
  {
    hide Only, Keys, Repeated, OutcomesProblems, RanIds;
    var selected := ToSet(r.selected);
    var runs := CountRuns(r.ran);
    var notRun := selected - Keys(runs);
    problems := Only(NotRun(r.shard, notRun), notRun != {});
    var twice := Repeated(runs);
    problems := problems + Only(RanTwice(r.shard, twice), twice != {});
    var extra := Keys(runs) - selected;
    problems := problems + Only(RanExtra(r.shard, extra), extra != {});
    var outcomes := CheckOutcomes(r.shard, r.ran, allowed);
    problems := problems + outcomes;
  }

  method CheckNarrowing(s: Session, plugins: set<string>) returns (narrowed: seq<Narrowing>)
    ensures narrowed == NarrowedBy(s, plugins)
  {
    hide Only;
    narrowed := Only(MarkExpr, s.markexpr != "");
    narrowed := narrowed + Only(Keyword, s.keyword != "");
    narrowed := narrowed + Only(Deselect, s.deselect != []);
    narrowed := narrowed + Only(Ignore, s.ignore != []);
    narrowed := narrowed + Only(IgnoreGlob, s.ignoreGlob != []);
    narrowed := narrowed + Only(LastFailed, s.lastFailed);
    narrowed := narrowed + Only(PreDeselected, s.preDeselected != 0);
    narrowed := narrowed + Only(Unannounced, s.unannounced != []);
    narrowed := narrowed + Only(Fabricated, s.fabricated != []);
    var disabled: seq<string> := [];
    for k := 0 to |s.disabledPlugins|
      invariant disabled == Disabled(s.disabledPlugins[..k], plugins)
    {
      assert s.disabledPlugins[..k + 1][..k] == s.disabledPlugins[..k];
      if s.disabledPlugins[k] !in plugins {
        disabled := disabled + [s.disabledPlugins[k]];
      }
    }
    assert s.disabledPlugins[..|s.disabledPlugins|] == s.disabledPlugins;
    narrowed := narrowed + Only(DisabledPlugins(disabled), disabled != []);
    narrowed := narrowed + Only(AutoloadDisabled, s.autoloadDisabled);
  }

  method CheckShard(r: Report, expected: set<string>, allowed: Allowed, plugins: set<string>)
    returns (problems: seq<Problem>)
    ensures problems == ShardProblems(r, expected, allowed, plugins)
  {
    hide RanProblems, NarrowedBy, Only;
    problems := Only(SelectedNothing(r.shard), r.selected == []);
    var stray := ToSet(r.selected) - expected;
    problems := problems + Only(SelectedStray(r.shard, stray), stray != {});
    var narrowed := CheckNarrowing(r.session, plugins);
    problems := problems + Only(Narrowed(r.shard, narrowed), narrowed != []);
    problems := problems + Only(CollectErrors(r.shard), r.collectErrors != []);
    var ran := CheckRan(r, allowed);
    problems := problems + ran;
  }

  /** How many reports each index has: one entry a group. */
  ghost predicate Groups(rs: seq<Report>, byIndex: map<nat, nat>) {
    forall i :: (i in byIndex <==> TimesReported(rs, i) > 0)
                && (i in byIndex ==> byIndex[i] == TimesReported(rs, i))
  }

  method GroupByIndex(rs: seq<Report>) returns (byIndex: map<nat, nat>)
    ensures Groups(rs, byIndex)
  {
    byIndex := map[];
    for k := 0 to |rs|
      invariant Groups(rs[..k], byIndex)
    {
      assert rs[..k + 1][..k] == rs[..k];
      var index := rs[k].shard;
      byIndex := byIndex[index := (if index in byIndex then byIndex[index] else 0) + 1];
    }
    assert rs[..|rs|] == rs;
  }

  method CheckReported(rs: seq<Report>, total: nat, byIndex: map<nat, nat>) returns (problems: seq<Problem>)
    requires Groups(rs, byIndex)
    ensures problems == IndexProblems(rs, total, MaxIndex(rs))
  {
    hide TimesReported, MaxIndex;
    problems := [];
    for index := 1 to MaxIndex(rs) + 1
      invariant problems == IndexProblems(rs, total, index - 1)
    {
      if index in byIndex {
        if index > total {
          problems := problems + [BeyondCount(index)];
        }
        if byIndex[index] > 1 {
          problems := problems + [ReportedTimes(index, byIndex[index])];
        }
      }
    }
  }

  method FindMissing(rs: seq<Report>, total: nat, byIndex: map<nat, nat>) returns (missing: seq<nat>)
    requires Groups(rs, byIndex)
    ensures missing == Missing(rs, total)
  {
    hide TimesReported;
    missing := [];
    for i := 1 to total + 1
      invariant missing == Missing(rs, i - 1)
    {
      if i !in byIndex {
        missing := missing + [i];
      }
    }
  }

  method CheckIndexes(rs: seq<Report>, total: nat) returns (problems: seq<Problem>)
    ensures problems == IndexProblems(rs, total, MaxIndex(rs)) +
                        Only(MissingShards(Missing(rs, total)), Missing(rs, total) != [])
  {
    hide Groups, IndexProblems, MaxIndex, Missing;
    var byIndex := GroupByIndex(rs);
    problems := CheckReported(rs, total, byIndex);
    var missing := FindMissing(rs, total, byIndex);
    problems := problems + Only(MissingShards(missing), missing != []);
  }

  method CheckCollected(rs: seq<Report>) returns (problems: seq<Problem>)
    requires rs != []
    ensures problems == CollectedProblems(rs, rs[0].collected)
  {
    var collected := rs[0].collected;
    problems := [];
    assert rs[..1] == [rs[0]] && rs[..1][..0] == [];
    for k := 1 to |rs|
      invariant problems == CollectedProblems(rs[..k], collected)
    {
      assert rs[..k + 1][..k] == rs[..k];
      if rs[k].collected != collected {
        problems := problems + [CollectedDifferently(rs[k].shard)];
      }
    }
    assert rs[..|rs|] == rs;
  }

  method CheckShards(rs: seq<Report>, expected: set<string>, allowed: Allowed, plugins: set<string>)
    returns (problems: seq<Problem>, seen: map<string, nat>)
    ensures problems == ShardsProblems(rs, expected, allowed, plugins) && seen == Seen(rs)
  {
    hide ShardProblems, Counted;
    problems, seen := [], map[];
    for k := 0 to |rs|
      invariant problems == ShardsProblems(rs[..k], expected, allowed, plugins) && seen == Seen(rs[..k])
    {
      assert rs[..k + 1][..k] == rs[..k];
      seen := Counted(seen, ToSet(rs[k].selected));
      var found := CheckShard(rs[k], expected, allowed, plugins);
      problems := problems + found;
    }
    assert rs[..|rs|] == rs;
  }

  /** The specified problems of a suite; where there are none, how many tests are proven. */
  method CheckSuite(rs: seq<Report>, allowed: Allowed, plugins: set<string>)
    returns (problems: seq<Problem>, proven: nat)
    ensures problems == SuiteProblems(rs, allowed, plugins)
    ensures problems == [] ==> rs != [] && proven == |ToSet(rs[0].collected)|
  {
    hide IndexProblems, MaxIndex, Missing, CollectedProblems, Repeated, ShardsProblems, Several, Seen, Only;
    if rs == [] {
      return [NoReport], 0;
    }
    if exists r :: r in rs && r.of != rs[0].of {
      return [DisagreeOnCount], 0;
    }
    problems := CheckIndexes(rs, rs[0].of);
    var different := CheckCollected(rs);
    problems := problems + different;
    var collected := rs[0].collected;
    problems := problems + Only(CollectedNothing, collected == []);
    var duplicated := Repeated(multiset(collected));
    problems := problems + Only(CollectedTwice(duplicated), duplicated != {});
    var expected := ToSet(collected);
    var wrong, seen := CheckShards(rs, expected, allowed, plugins);
    problems := problems + wrong;
    var none := expected - seen.Keys;
    problems := problems + Only(SelectedByNone(none), none != {});
    var several := Several(seen);
    problems := problems + Only(SelectedBySeveral(several), several != {});
    proven := |expected|;
  }

  // --- Nothing reported means exactly this ---

  ghost predicate OutcomeAllowed(record: Record, allowed: Allowed) {
    || record.outcome == Passed || record.outcome == Xfailed
    || (record.outcome == Skipped &&
        (allowed.None? || (match record.skipReason case Some(r) => r case None => "") in allowed.value))
  }

  ghost predicate Unnarrowed(s: Session, plugins: set<string>) {
    && s.markexpr == "" && s.keyword == "" && s.deselect == [] && s.ignore == [] && s.ignoreGlob == []
    && !s.lastFailed && s.preDeselected == 0 && s.unannounced == [] && s.fabricated == []
    && (forall p :: p in s.disabledPlugins ==> p in plugins) && !s.autoloadDisabled
  }

  /** Each selected test ran exactly once and nothing else ran, with allowed outcomes. */
  ghost predicate RanRight(r: Report, allowed: Allowed) {
    && RanIds(r.ran) == multiset(ToSet(r.selected))
    && forall k :: 0 <= k < |r.ran| ==> OutcomeAllowed(r.ran[k], allowed)
  }

  ghost predicate ShardRight(r: Report, expected: set<string>, allowed: Allowed, plugins: set<string>) {
    && r.selected != [] && ToSet(r.selected) <= expected
    && Unnarrowed(r.session, plugins) && r.collectErrors == []
    && RanRight(r, allowed)
  }

  ghost predicate Disjoint(rs: seq<Report>) {
    forall j, k :: 0 <= j < k < |rs| ==> ToSet(rs[j].selected) !! ToSet(rs[k].selected)
  }

  ghost predicate Covers(rs: seq<Report>, expected: set<string>) {
    forall x :: x in expected ==> exists k :: 0 <= k < |rs| && x in rs[k].selected
  }

  /** Shard numbers are exactly 1 to `total`, once each. */
  ghost predicate NumberedTo(rs: seq<Report>, total: nat) {
    forall i: nat :: TimesReported(rs, i) == if 1 <= i <= total then 1 else 0
  }

  /** What a suite's reports must be for every collected test to have run exactly once. */
  ghost predicate Proven(rs: seq<Report>, allowed: Allowed, plugins: set<string>) {
    && rs != []
    && (forall k :: 0 <= k < |rs| ==> rs[k].of == rs[0].of && rs[k].collected == rs[0].collected)
    && NumberedTo(rs, rs[0].of)
    && rs[0].collected != [] && NoRepeats(rs[0].collected)
    && (forall k :: 0 <= k < |rs| ==> ShardRight(rs[k], ToSet(rs[0].collected), allowed, plugins))
    && Disjoint(rs) && Covers(rs, ToSet(rs[0].collected))
  }

  lemma {:induction false} NoDisabled(ps: seq<string>, plugins: set<string>)
    ensures Disabled(ps, plugins) == [] <==> forall p :: p in ps ==> p in plugins
  {
    if ps != [] {
      var n := |ps| - 1;
      NoDisabled(ps[..n], plugins);
      assert ps == ps[..n] + [ps[n]];
    }
  }

  lemma NothingNarrowed(s: Session, plugins: set<string>)
    ensures NarrowedBy(s, plugins) == [] <==> Unnarrowed(s, plugins)
  {
    hide Disabled;
    NoDisabled(s.disabledPlugins, plugins);
  }

  lemma {:induction false} OutcomesRight(shard: nat, ran: seq<Record>, allowed: Allowed)
    ensures OutcomesProblems(shard, ran, allowed) == [] <==>
            forall k :: 0 <= k < |ran| ==> OutcomeAllowed(ran[k], allowed)
  {
    if ran != [] {
      var n := |ran| - 1;
      OutcomesRight(shard, ran[..n], allowed);
      assert forall k :: 0 <= k < n ==> ran[..n][k] == ran[k];
      assert OutcomeProblems(shard, ran[n], allowed) == [] <==> OutcomeAllowed(ran[n], allowed);
    }
  }

  /** A bag is a set's members once each exactly when nothing lacks, repeats or strays. */
  lemma OnceEach(runs: multiset<string>, selected: set<string>)
    ensures runs == multiset(selected) <==>
            selected - Keys(runs) == {} && Repeated(runs) == {} && Keys(runs) - selected == {}
  {
    if selected - Keys(runs) == {} && Repeated(runs) == {} && Keys(runs) - selected == {} {
      forall x
        ensures runs[x] == multiset(selected)[x]
      {
        if x in selected {
          assert x !in selected - Keys(runs) && x !in Repeated(runs);
        } else {
          assert x !in Keys(runs) - selected;
        }
      }
    }
  }

  lemma RanIsRight(r: Report, allowed: Allowed)
    ensures RanProblems(r, allowed) == [] <==> RanRight(r, allowed)
  {
    hide OutcomesProblems, OutcomeAllowed, RanIds, Keys, Repeated;
    OnceEach(RanIds(r.ran), ToSet(r.selected));
    OutcomesRight(r.shard, r.ran, allowed);
  }

  lemma ShardIsRight(r: Report, expected: set<string>, allowed: Allowed, plugins: set<string>)
    ensures ShardProblems(r, expected, allowed, plugins) == [] <==> ShardRight(r, expected, allowed, plugins)
  {
    hide RanProblems, RanRight, NarrowedBy, Unnarrowed;
    RanIsRight(r, allowed);
    NothingNarrowed(r.session, plugins);
    NoDifference(ToSet(r.selected), expected);
  }

  lemma NoDifference(a: set<string>, b: set<string>)
    ensures a - b == {} <==> a <= b
  {
    if a - b == {} {
      forall x | x in a
        ensures x in b
      {
        assert x !in a - b;
      }
    }
  }

  lemma {:induction false} ShardsAreRight(rs: seq<Report>, expected: set<string>, allowed: Allowed,
                                          plugins: set<string>)
    ensures ShardsProblems(rs, expected, allowed, plugins) == [] <==>
            forall k :: 0 <= k < |rs| ==> ShardRight(rs[k], expected, allowed, plugins)
  {
    hide ShardProblems, ShardRight;
    if rs != [] {
      var n := |rs| - 1;
      ShardsAreRight(rs[..n], expected, allowed, plugins);
      ShardIsRight(rs[n], expected, allowed, plugins);
      assert forall k :: 0 <= k < n ==> rs[..n][k] == rs[k];
    }
  }

  lemma {:induction false} CollectedAlike(rs: seq<Report>, collected: seq<string>)
    ensures CollectedProblems(rs, collected) == [] <==> forall k :: 0 <= k < |rs| ==> rs[k].collected == collected
  {
    if rs != [] {
      var n := |rs| - 1;
      CollectedAlike(rs[..n], collected);
      assert forall k :: 0 <= k < n ==> rs[..n][k] == rs[k];
    }
  }

  /** Index `i` is not reported more often than it may be. */
  predicate WithinCount(rs: seq<Report>, total: nat, i: nat) {
    TimesReported(rs, i) == 0 || (TimesReported(rs, i) == 1 && i <= total)
  }

  lemma {:induction false} IndexesRight(rs: seq<Report>, total: nat, upTo: nat)
    ensures IndexProblems(rs, total, upTo) == [] <==>
            forall i: nat :: 1 <= i <= upTo ==> WithinCount(rs, total, i)
  {
    hide TimesReported;
    if upTo > 0 {
      IndexesRight(rs, total, upTo - 1);
      assert IndexProblems(rs, total, upTo) == [] <==>
             IndexProblems(rs, total, upTo - 1) == [] && WithinCount(rs, total, upTo);
    }
  }

  lemma {:induction false} NoneMissing(rs: seq<Report>, total: nat)
    ensures Missing(rs, total) == [] <==> forall i :: 1 <= i <= total ==> TimesReported(rs, i) > 0
  {
    hide TimesReported;
    if total > 0 {
      NoneMissing(rs, total - 1);
      assert (forall i :: 1 <= i <= total ==> TimesReported(rs, i) > 0) <==>
             (forall i :: 1 <= i <= total - 1 ==> TimesReported(rs, i) > 0) && TimesReported(rs, total) > 0;
    }
  }

  lemma {:induction false} OnlyReported(rs: seq<Report>, index: nat)
    ensures TimesReported(rs, index) > 0 ==> 1 <= index <= MaxIndex(rs)
  {
    if rs != [] {
      var n := |rs| - 1;
      OnlyReported(rs[..n], index);
      assert rs[n] in rs;
    }
  }

  lemma NumbersRight(rs: seq<Report>, total: nat)
    ensures IndexProblems(rs, total, MaxIndex(rs)) == [] && Missing(rs, total) == [] <==> NumberedTo(rs, total)
  {
    hide TimesReported, MaxIndex, IndexProblems, Missing;
    IndexesRight(rs, total, MaxIndex(rs));
    NoneMissing(rs, total);
    forall i: nat
      ensures TimesReported(rs, i) > 0 ==> 1 <= i <= MaxIndex(rs)
    {
      OnlyReported(rs, i);
    }
    if IndexProblems(rs, total, MaxIndex(rs)) == [] && Missing(rs, total) == [] {
      forall i: nat
        ensures TimesReported(rs, i) == if 1 <= i <= total then 1 else 0
      {
        assert 1 <= i <= MaxIndex(rs) ==> WithinCount(rs, total, i);
      }
    }
  }

  lemma NotRepeated(s: seq<string>)
    ensures Repeated(multiset(s)) == {} <==> NoRepeats(s)
  {
    if Repeated(multiset(s)) == {} {
      forall j, k | 0 <= j < k < |s|
        ensures s[j] != s[k]
      {
        assert s[j] in multiset(s) && s[j] !in Repeated(multiset(s));
        assert s == s[..j + 1] + s[j + 1..];
        assert s[..j + 1][j] == s[j] && s[j + 1..][k - j - 1] == s[k];
        assert s[j] in multiset(s[..j + 1]) && s[k] in multiset(s[j + 1..]);
      }
    }
    if NoRepeats(s) {
      forall x | x in s
        ensures multiset(s)[x] == 1
      {
        OneOccurrence(s, x);
      }
    }
  }

  lemma {:induction false} OneOccurrence(s: seq<string>, x: string)
    requires NoRepeats(s) && x in s
    ensures multiset(s)[x] == 1
  {
    var n := |s| - 1;
    assert s == s[..n] + [s[n]];
    if s[n] == x {
      assert x !in s[..n];
      assert x !in multiset(s[..n]);
    } else {
      OneOccurrence(s[..n], x);
    }
  }

  // --- Selected by one shard each ---

  lemma {:induction false} SeenBy(rs: seq<Report>, x: string)
    ensures x in Seen(rs) <==> exists k :: 0 <= k < |rs| && x in rs[k].selected
    ensures x in Seen(rs) ==> Seen(rs)[x] >= 1
  {
    if rs != [] {
      var n := |rs| - 1;
      SeenBy(rs[..n], x);
      assert forall k :: 0 <= k < n ==> rs[..n][k] == rs[k];
    }
  }

  lemma {:induction false} SeenOnce(rs: seq<Report>)
    ensures Several(Seen(rs)) == {} <==> Disjoint(rs)
  {
    hide ToSet;
    if rs != [] {
      var n := |rs| - 1;
      var before, last := Seen(rs[..n]), ToSet(rs[n].selected);
      SeenOnce(rs[..n]);
      assert forall k :: 0 <= k < n ==> rs[..n][k] == rs[k];
      NoOverlap(rs, n);
      CountedSeveral(before, last);
    }
  }

  lemma CountedSeveral(seen: map<string, nat>, nodes: set<string>)
    requires forall x :: x in seen ==> seen[x] >= 1
    ensures Several(Counted(seen, nodes)) == {} <==> Several(seen) == {} && seen.Keys !! nodes
  {
    var after := Counted(seen, nodes);
    if Several(after) == {} {
      forall x | x in seen
        ensures x !in nodes && seen[x] <= 1
      {
        assert x in after && x !in Several(after);
      }
    }
  }

  /** Report `n` shares no test with those above it exactly when it does with none of them. */
  lemma NoOverlap(rs: seq<Report>, n: nat)
    requires n < |rs|
    ensures forall x :: x in Seen(rs[..n]) ==> Seen(rs[..n])[x] >= 1
    ensures Seen(rs[..n]).Keys !! ToSet(rs[n].selected) <==>
            forall k :: 0 <= k < n ==> ToSet(rs[k].selected) !! ToSet(rs[n].selected)
  {
    var seen := Seen(rs[..n]);
    forall x
      ensures x in seen <==> exists k :: 0 <= k < n && x in rs[k].selected
      ensures x in seen ==> seen[x] >= 1
    {
      SeenBy(rs[..n], x);
      assert forall k :: 0 <= k < n ==> rs[..n][k] == rs[k];
    }
    if seen.Keys !! ToSet(rs[n].selected) {
      forall k | 0 <= k < n
        ensures ToSet(rs[k].selected) !! ToSet(rs[n].selected)
      {
        forall x | x in ToSet(rs[k].selected)
          ensures x !in ToSet(rs[n].selected)
        {
          assert x in seen.Keys;
        }
      }
    }
    if forall k :: 0 <= k < n ==> ToSet(rs[k].selected) !! ToSet(rs[n].selected) {
      forall x | x in seen.Keys
        ensures x !in ToSet(rs[n].selected)
      {
        var k :| 0 <= k < n && x in rs[k].selected;
        assert x in ToSet(rs[k].selected);
      }
    }
  }

  lemma SeenCovers(rs: seq<Report>, expected: set<string>)
    ensures expected - Seen(rs).Keys == {} <==> Covers(rs, expected)
  {
    forall x
      ensures x in Seen(rs) <==> exists k :: 0 <= k < |rs| && x in rs[k].selected
    {
      SeenBy(rs, x);
    }
    NoDifference(expected, Seen(rs).Keys);
  }

  /** The checker is exact: it reports nothing exactly when the reports prove that every
      collected test ran once. */
  lemma CheckerIsExact(rs: seq<Report>, allowed: Allowed, plugins: set<string>)
    ensures SuiteProblems(rs, allowed, plugins) == [] <==> Proven(rs, allowed, plugins)
  {
    hide IndexProblems, MaxIndex, Missing, CollectedProblems, Repeated, ShardsProblems, Several, Seen;
    hide ToSet, NumberedTo, NoRepeats, ShardRight, Disjoint, Covers;
    if rs != [] {
      var total, collected := rs[0].of, rs[0].collected;
      var expected := ToSet(collected);
      NumbersRight(rs, total);
      CollectedAlike(rs, collected);
      NotRepeated(collected);
      ShardsAreRight(rs, expected, allowed, plugins);
      SeenOnce(rs);
      SeenCovers(rs, expected);
      assert (exists r :: r in rs && r.of != total) <==> exists k :: 0 <= k < |rs| && rs[k].of != total;
    }
  }

  // --- What it proves ---

  /** Every id that ran in any shard, as often as it did. */
  function AllRan(rs: seq<Report>): multiset<string> {
    if rs == [] then multiset{} else AllRan(rs[..|rs| - 1]) + RanIds(rs[|rs| - 1].ran)
  }

  lemma {:induction false} AllRanIsSelected(rs: seq<Report>, allowed: Allowed)
    requires Disjoint(rs) && forall k :: 0 <= k < |rs| ==> RanRight(rs[k], allowed)
    ensures AllRan(rs) == multiset(Seen(rs).Keys)
  {
    hide ToSet, RanIds, OutcomeAllowed, Disjoint, Seen, RanRight;
    if rs == [] {
      NothingSeen();
    } else {
      var n := |rs| - 1;
      FirstShards(rs);
      assert forall k :: 0 <= k < n ==> rs[..n][k] == rs[k];
      AllRanIsSelected(rs[..n], allowed);
      SeenNext(rs);
      RanIsSelected(rs[n], allowed);
      BothOnce(Seen(rs[..n]).Keys, ToSet(rs[n].selected));
    }
  }

  lemma NothingSeen()
    ensures Seen([]).Keys == {}
  {
  }

  lemma FirstShards(rs: seq<Report>)
    requires rs != [] && Disjoint(rs)
    ensures Disjoint(rs[..|rs| - 1])
  {
    hide ToSet;
    var n := |rs| - 1;
    assert forall k :: 0 <= k < n ==> rs[..n][k] == rs[k];
  }

  lemma SeenNext(rs: seq<Report>)
    requires rs != [] && Disjoint(rs)
    ensures var n := |rs| - 1;
            Seen(rs).Keys == Seen(rs[..n]).Keys + ToSet(rs[n].selected) && Seen(rs[..n]).Keys !! ToSet(rs[n].selected)
  {
    hide ToSet;
    NoOverlap(rs, |rs| - 1);
  }

  lemma RanIsSelected(r: Report, allowed: Allowed)
    requires RanRight(r, allowed)
    ensures RanIds(r.ran) == multiset(ToSet(r.selected))
  {
    hide ToSet, RanIds, OutcomeAllowed;
  }

  lemma BothOnce(a: set<string>, b: set<string>)
    requires a !! b
    ensures multiset(a + b) == multiset(a) + multiset(b)
  {
  }

  /** Conservation: over all shards together, what ran is what was collected, once each. */
  lemma EveryTestRanOnce(rs: seq<Report>, allowed: Allowed, plugins: set<string>)
    requires Proven(rs, allowed, plugins)
    ensures AllRan(rs) == multiset(rs[0].collected)
  {
    hide AllRan, Disjoint, RanRight, NumberedTo, NoRepeats, Seen, ToSet;
    var collected := rs[0].collected;
    EachRanRight(rs, allowed, plugins);
    AllRanIsSelected(rs, allowed);
    SeenIsCollected(rs, allowed, plugins);
    forall x
      ensures multiset(Seen(rs).Keys)[x] == multiset(collected)[x]
    {
      if x in collected {
        OneOccurrence(collected, x);
      } else {
        assert x !in multiset(collected);
      }
    }
  }

  lemma EachRanRight(rs: seq<Report>, allowed: Allowed, plugins: set<string>)
    requires Proven(rs, allowed, plugins)
    ensures forall k :: 0 <= k < |rs| ==> RanRight(rs[k], allowed)
  {
    hide RanRight, NumberedTo, NoRepeats, ToSet, Disjoint, Covers;
  }

  lemma SeenIsCollected(rs: seq<Report>, allowed: Allowed, plugins: set<string>)
    requires Proven(rs, allowed, plugins)
    ensures forall x :: x in Seen(rs) <==> x in rs[0].collected
  {
    hide RanRight, NumberedTo, NoRepeats, Seen, Disjoint;
    var collected := rs[0].collected;
    SeenCovers(rs, ToSet(collected));
    forall x
      ensures x in Seen(rs) <==> x in collected
    {
      SeenBy(rs, x);
      if x in Seen(rs) {
        var k :| 0 <= k < |rs| && x in rs[k].selected;
        assert x in ToSet(rs[k].selected);
      }
      assert x in ToSet(collected) <==> x in collected;
    }
  }
}
