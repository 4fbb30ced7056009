/** Which problems the summary raises, each by what it means of the report files. */
module SummaryReports {
  import opened Wrappers
  import opened Ordering
  import opened Sequences
  import opened Shards
  import opened Runner
  import opened Summary
  import SummaryFacts

  // --- What the files say ---

  predicate IsFor(f: File, s: Shard) {
    f.Report? && ParseShard(f.shard) == Some(s)
  }

  /** File `i` counts: the first report of a planned shard. */
  predicate Counts(plan: Plan, files: seq<File>, i: nat) {
    && i < |files| && files[i].Report? && ParseShard(files[i].shard).Some?
    && var s := ParseShard(files[i].shard).value;
       InPlan(plan, s) && forall j: nat :: j < i ==> !IsFor(files[j], s)
  }

  predicate Has(plan: Plan, files: seq<File>, i: nat, page: string) {
    Counts(plan, files, i) && page in files[i].pages
  }

  function HoldersOf(plan: Plan, files: seq<File>, page: string): set<nat> {
    set i: nat | i < |files| && Has(plan, files, i, page)
  }

  /** The last file that counts and has the page. */
  predicate IsLast(plan: Plan, files: seq<File>, i: nat, page: string) {
    Has(plan, files, i, page) && forall j: nat :: i < j < |files| ==> !Has(plan, files, j, page)
  }

  ghost predicate SomeFor(files: seq<File>, s: Shard) {
    exists i: nat :: i < |files| && IsFor(files[i], s)
  }

  lemma PrefixCounts(plan: Plan, files: seq<File>, i: nat)
    requires i < |files| - 1
    ensures Counts(plan, files[..|files| - 1], i) <==> Counts(plan, files, i)
  {
    hide InPlan, ParseShard;
    assert forall j: nat :: j <= i ==> files[..|files| - 1][j] == files[j];
  }

  /** What reading the last file does. */
  lemma LastRead(plan: Plan, t: Tally, files: seq<File>)
    requires files != [] && forall s :: s in t.seen <==> InPlan(plan, s) && SomeFor(files[..|files| - 1], s)
    ensures var n := |files| - 1;
            var after := Read(plan, t, n, files[n]);
            if Counts(plan, files, n) then after == Accept(t, ParseShard(files[n].shard).value, files[n])
            else after.seen == t.seen && after.where == t.where && after.results == t.results
  {
    hide InPlan, ParseShard;
    var n := |files| - 1;
    assert forall j: nat :: j < n ==> files[..n][j] == files[j];
  }

  lemma {:induction false} SeenIs(plan: Plan, files: seq<File>, s: Shard)
    ensures s in ReadAll(plan, files).seen <==> InPlan(plan, s) && SomeFor(files, s)
  {
    hide InPlan, ParseShard, Counts, Read, IsFor;
    if files != [] {
      var n := |files| - 1;
      forall r ensures r in ReadAll(plan, files[..n]).seen <==> InPlan(plan, r) && SomeFor(files[..n], r) {
        SeenIs(plan, files[..n], r);
      }
      LastRead(plan, ReadAll(plan, files[..n]), files);
      SomeForSplits(files, s);
      CountsIs(plan, files, n, s);
    }
  }

  lemma SomeForSplits(files: seq<File>, s: Shard)
    requires files != []
    ensures SomeFor(files, s) <==> SomeFor(files[..|files| - 1], s) || IsFor(files[|files| - 1], s)
  {
    hide IsFor;
    var n := |files| - 1;
    if SomeFor(files[..n], s) {
      var i: nat :| i < n && IsFor(files[..n][i], s);
      assert IsFor(files[i], s);
    }
    if SomeFor(files, s) && !IsFor(files[n], s) {
      var i: nat :| i < |files| && IsFor(files[i], s);
      assert IsFor(files[..n][i], s);
    }
  }

  lemma CountsIs(plan: Plan, files: seq<File>, n: nat, s: Shard)
    requires n == |files| - 1
    ensures Counts(plan, files, n) && ParseShard(files[n].shard).value == s ==> IsFor(files[n], s) && InPlan(plan, s)
    ensures Counts(plan, files, n) ==> files[n].Report? && ParseShard(files[n].shard).Some?
    ensures IsFor(files[n], s) && InPlan(plan, s) && !SomeFor(files[..n], s) ==> Counts(plan, files, n)
    ensures IsFor(files[n], s) ==> ParseShard(files[n].shard).Some? && ParseShard(files[n].shard).value == s
  {
    hide InPlan, ParseShard;
    assert forall j: nat :: j < n ==> files[..n][j] == files[j];
  }

  lemma HasSplits(plan: Plan, files: seq<File>, page: string)
    requires files != []
    ensures var n := |files| - 1;
            HoldersOf(plan, files, page)
            == HoldersOf(plan, files[..n], page) + if Has(plan, files, n, page) then {n} else {}
  {
    hide Counts;
    var n := |files| - 1;
    forall i: nat | i < n
      ensures Has(plan, files[..n], i, page) <==> Has(plan, files, i, page)
    {
      PrefixCounts(plan, files, i);
      assert files[..n][i] == files[i];
      CountsInside(plan, files, i);
      CountsInside(plan, files[..n], i);
    }
  }

  lemma CountsInside(plan: Plan, files: seq<File>, i: nat)
    ensures Counts(plan, files, i) ==> i < |files| && files[i].Report?
  {
  }

  /** A page stands in the tally as often as counting files have it, with the last one's result. */
  lemma {:induction false} HeldIs(plan: Plan, files: seq<File>, page: string)
    ensures var t := ReadAll(plan, files);
            && (page in t.where <==> HoldersOf(plan, files, page) != {})
            && (page in t.results <==> page in t.where)
            && (page in t.where ==> |t.where[page]| == |HoldersOf(plan, files, page)|)
            && forall i: nat :: IsLast(plan, files, i, page) ==>
                 i < |files| && files[i].Report? && page in files[i].pages
                 && page in t.results && t.results[page] == files[i].pages[page]
  {
    hide InPlan, ParseShard, Counts, Read, IsFor, HoldersOf, IsLast;
    if files == [] {
      NoHolders(plan, page);
    } else {
      var n := |files| - 1;
      var before := ReadAll(plan, files[..n]);
      HeldIs(plan, files[..n], page);
      forall s ensures s in before.seen <==> InPlan(plan, s) && SomeFor(files[..n], s) {
        SeenIs(plan, files[..n], s);
      }
      LastRead(plan, before, files);
      HasSplits(plan, files, page);
      NotYet(plan, files, page);
      CountsInside(plan, files, n);
      forall i: nat | IsLast(plan, files, i, page)
        ensures i < |files| && files[i].Report? && page in files[i].pages
        ensures page in ReadAll(plan, files).results && ReadAll(plan, files).results[page] == files[i].pages[page]
      {
        LastSplits(plan, files, i, page);
      }
    }
  }

  lemma NoHolders(plan: Plan, page: string)
    ensures HoldersOf(plan, [], page) == {} && forall i: nat :: !IsLast(plan, [], i, page)
  {
  }

  lemma NotYet(plan: Plan, files: seq<File>, page: string)
    requires files != []
    ensures |files| - 1 !in HoldersOf(plan, files[..|files| - 1], page)
  {
  }

  lemma LastSplits(plan: Plan, files: seq<File>, i: nat, page: string)
    requires files != [] && IsLast(plan, files, i, page)
    ensures var n := |files| - 1;
            && i < |files| && files[i].Report? && page in files[i].pages
            && (i == n ==> Has(plan, files, n, page))
            && (i < n ==> IsLast(plan, files[..n], i, page) && !Has(plan, files, n, page) && files[..n][i] == files[i])
  {
    hide Counts;
    CountsInside(plan, files, i);
    var n := |files| - 1;
    forall j: nat | j < n
      ensures Has(plan, files[..n], j, page) <==> Has(plan, files, j, page)
    {
      PrefixCounts(plan, files, j);
      assert files[..n][j] == files[j];
      CountsInside(plan, files, j);
      CountsInside(plan, files[..n], j);
    }
  }

  // --- Problems of reading ---

  ghost predicate ReadHas(plan: Plan, files: seq<File>, p: Problem) {
    match p
    case NotReadable(i) => i < |files| && files[i].Unreadable?
    case NotAReport(i) => i < |files| && files[i].Malformed?
    case BadLabel(i) => i < |files| && files[i].Report? && ParseShard(files[i].shard).None?
    case NotPlanned(i, s) => i < |files| && IsFor(files[i], s) && !InPlan(plan, s)
    case ReportedTwice(s) =>
      InPlan(plan, s) && exists i: nat, j: nat :: i < j < |files| && IsFor(files[i], s) && IsFor(files[j], s)
    case Stopped(s) =>
      exists i: nat :: StoppedAt(plan, files, s, i)
    case _ => false
  }

  /** What the last file adds. */
  ghost predicate LastHas(plan: Plan, files: seq<File>, p: Problem)
    requires files != []
  {
    var n := |files| - 1;
    match p
    case NotReadable(i) => i == n && files[n].Unreadable?
    case NotAReport(i) => i == n && files[n].Malformed?
    case BadLabel(i) => i == n && files[n].Report? && ParseShard(files[n].shard).None?
    case NotPlanned(i, s) => i == n && IsFor(files[n], s) && !InPlan(plan, s)
    case ReportedTwice(s) => InPlan(plan, s) && IsFor(files[n], s) && SomeFor(files[..n], s)
    case Stopped(s) => InPlan(plan, s) && IsFor(files[n], s) && !SomeFor(files[..n], s) && files[n].stopped
    case _ => false
  }

  lemma LastAdds(plan: Plan, t: Tally, files: seq<File>, p: Problem)
    requires files != [] && forall s :: s in t.seen <==> InPlan(plan, s) && SomeFor(files[..|files| - 1], s)
    ensures var n := |files| - 1;
            p in Read(plan, t, n, files[n]).problems <==> p in t.problems || LastHas(plan, files, p)
  {
    hide InPlan, ParseShard, SomeFor;
  }

  lemma TwiceSplits(files: seq<File>, s: Shard)
    requires files != []
    ensures var n := |files| - 1;
            (exists i: nat, j: nat :: i < j < |files| && IsFor(files[i], s) && IsFor(files[j], s))
            <==> (exists i: nat, j: nat :: i < j < n && IsFor(files[..n][i], s) && IsFor(files[..n][j], s))
                 || (IsFor(files[n], s) && SomeFor(files[..n], s))
  {
    hide IsFor;
    var n := |files| - 1;
    assert forall j: nat :: j < n ==> files[..n][j] == files[j];
    if exists i: nat, j: nat :: i < j < n && IsFor(files[..n][i], s) && IsFor(files[..n][j], s) {
      var i: nat, j: nat :| i < j < n && IsFor(files[..n][i], s) && IsFor(files[..n][j], s);
      assert IsFor(files[i], s) && IsFor(files[j], s);
    }
    if IsFor(files[n], s) && SomeFor(files[..n], s) {
      var i: nat :| i < n && IsFor(files[..n][i], s);
      assert IsFor(files[i], s);
    }
    if exists i: nat, j: nat :: i < j < |files| && IsFor(files[i], s) && IsFor(files[j], s) {
      var i: nat, j: nat :| i < j < |files| && IsFor(files[i], s) && IsFor(files[j], s);
      assert IsFor(files[..n][i], s);
      assert j < n ==> IsFor(files[..n][j], s);
    }
  }

  predicate StoppedAt(plan: Plan, files: seq<File>, s: Shard, i: nat) {
    Counts(plan, files, i) && IsFor(files[i], s) && files[i].stopped
  }

  lemma StoppedSplits(plan: Plan, files: seq<File>, s: Shard)
    requires files != []
    ensures var n := |files| - 1;
            (exists i: nat :: StoppedAt(plan, files, s, i))
            <==> (exists i: nat :: StoppedAt(plan, files[..n], s, i))
                 || (InPlan(plan, s) && IsFor(files[n], s) && !SomeFor(files[..n], s) && files[n].stopped)
  {
    hide InPlan, ParseShard, Counts;
    var n := |files| - 1;
    forall i: nat | i < n
      ensures StoppedAt(plan, files[..n], s, i) <==> StoppedAt(plan, files, s, i)
    {
      PrefixCounts(plan, files, i);
      assert files[..n][i] == files[i];
      CountsInside(plan, files, i);
      CountsInside(plan, files[..n], i);
    }
    CountsIs(plan, files, n, s);
    if Counts(plan, files, n) && IsFor(files[n], s) {
      CountsMeansFirst(plan, files, s);
    }
    if InPlan(plan, s) && IsFor(files[n], s) && !SomeFor(files[..n], s) && files[n].stopped {
      assert StoppedAt(plan, files, s, n);
    }
    if exists i: nat :: StoppedAt(plan, files, s, i) {
      var i: nat :| StoppedAt(plan, files, s, i);
      CountsInside(plan, files, i);
    }
    if exists i: nat :: StoppedAt(plan, files[..n], s, i) {
      var i: nat :| StoppedAt(plan, files[..n], s, i);
      CountsInside(plan, files[..n], i);
    }
  }

  lemma CountsMeansFirst(plan: Plan, files: seq<File>, s: Shard)
    requires files != [] && Counts(plan, files, |files| - 1) && IsFor(files[|files| - 1], s)
    ensures !SomeFor(files[..|files| - 1], s) && InPlan(plan, s)
  {
    hide InPlan, ParseShard;
  }

  lemma {:induction false} ReadProblemIs(plan: Plan, files: seq<File>, p: Problem)
    ensures p in ReadAll(plan, files).problems <==> ReadHas(plan, files, p)
  {
    hide InPlan, ParseShard, IsFor, Read, SomeFor, StoppedAt;
    if files == [] {
      NoneStopped(plan);
    } else {
      var n := |files| - 1;
      var before := ReadAll(plan, files[..n]);
      ReadProblemIs(plan, files[..n], p);
      forall s ensures s in before.seen <==> InPlan(plan, s) && SomeFor(files[..n], s) {
        SeenIs(plan, files[..n], s);
      }
      LastAdds(plan, before, files, p);
      assert forall j: nat :: j < n ==> files[..n][j] == files[j];
      match p
      case ReportedTwice(s) => TwiceSplits(files, s);
      case Stopped(s) => StoppedSplits(plan, files, s);
      case _ =>
    }
  }

  lemma NoneStopped(plan: Plan)
    ensures forall s, i: nat :: !StoppedAt(plan, [], s, i)
  {
  }

  // --- Problems of judging ---

  /** Some planned shard that no file is for has the page. */
  ghost predicate IsUnreported(plan: Plan, files: seq<File>, page: string) {
    exists k :: 0 <= k < |plan| && !SomeFor(files, plan[k].0) && page in plan[k].1
  }

  /** The blocks that reached their end on a page, by the last file that counts and has it. */
  ghost function ReachedOn(plan: Plan, files: seq<File>, page: string): nat {
    if exists i: nat :: IsLast(plan, files, i, page) && IsResult(files, i, page) then
      var i: nat :| IsLast(plan, files, i, page) && IsResult(files, i, page);
      files[i].pages[page].reached
    else 0
  }

  /** And on all pages that run. */
  ghost function TotalReached(docs: seq<Doc>, plan: Plan, files: seq<File>): nat {
    if docs == [] then 0
    else
      var last := docs[|docs| - 1];
      TotalReached(docs[..|docs| - 1], plan, files) + if last.exec > 0 then ReachedOn(plan, files, last.path) else 0
  }

  /** What the summary raises of an enrolment's report files. */
  ghost predicate Raises(e: Enrolment, files: seq<File>, p: Problem) {
    var plan, expected := PlanOf(e.documents), ExpectedPages(e.documents);
    match p
    case NoReport(s) => InPlan(plan, s) && !SomeFor(files, s)
    case NotAPage(page) => page !in expected && HoldersOf(plan, files, page) != {}
    case RanTimes(page, times) => page in expected && times == |HoldersOf(plan, files, page)| > 1
    case InNoReport(page) =>
      page in expected && HoldersOf(plan, files, page) == {} && !IsUnreported(plan, files, page)
    case WrongExec(page) =>
      page in expected && exists i: nat ::
        IsLast(plan, files, i, page) && IsResult(files, i, page) && files[i].pages[page].exec != expected[page]
    case WrongReached(page) =>
      page in expected && exists i: nat ::
        IsLast(plan, files, i, page) && IsResult(files, i, page) && files[i].pages[page].reached != expected[page]
    case PageFailed(page) =>
      page in expected && exists i: nat ::
        IsLast(plan, files, i, page) && IsResult(files, i, page)
        && files[i].pages[page].reached == expected[page] && !files[i].pages[page].passed
    case WrongTotal(reached) =>
      reached == TotalReached(e.documents, plan, files) && reached != e.execTotal
    case _ => ReadHas(plan, files, p)
  }

  predicate IsResult(files: seq<File>, i: nat, page: string) {
    i < |files| && files[i].Report? && page in files[i].pages
  }

  lemma {:induction false} UnseenIs(plan: Plan, seen: set<Shard>, p: Problem)
    ensures p in Unseen(plan, seen) <==> p.NoReport? && InPlan(plan, p.shard) && p.shard !in seen
  {
    if plan != [] {
      var n := |plan| - 1;
      UnseenIs(plan[..n], seen, p);
      InPlanSplits(plan, n);
    }
  }

  lemma InPlanSplits(plan: Plan, n: nat)
    requires n == |plan| - 1
    ensures forall s :: InPlan(plan, s) <==> InPlan(plan[..n], s) || plan[n].0 == s
  {
    forall s ensures InPlan(plan, s) <==> InPlan(plan[..n], s) || plan[n].0 == s {
      if InPlan(plan[..n], s) {
        var k :| 0 <= k < n && plan[..n][k].0 == s;
        assert plan[k].0 == s;
      }
      if InPlan(plan, s) && plan[n].0 != s {
        var k :| 0 <= k < |plan| && plan[k].0 == s;
        assert plan[..n][k].0 == s;
      }
    }
  }

  lemma {:induction false} UnreportedIs(plan: Plan, seen: set<Shard>, page: string)
    ensures page in Unreported(plan, seen) <==> exists k :: 0 <= k < |plan| && plan[k].0 !in seen && page in plan[k].1
  {
    if plan != [] {
      var n := |plan| - 1;
      UnreportedIs(plan[..n], seen, page);
      assert forall k :: 0 <= k < n ==> plan[..n][k] == plan[k];
    }
  }

  lemma {:induction false} PagesAre(pages: seq<string>, expected: map<string, nat>, where: map<string, seq<Shard>>,
                                    p: Problem)
    requires forall q :: q in pages ==> q in where
    ensures p in PagesProblems(pages, expected, where) <==>
            match p
            case NotAPage(page) => page in pages && page !in expected
            case RanTimes(page, times) => page in pages && page in expected && times == |where[page]| > 1
            case _ => false
  {
    if pages != [] {
      var n := |pages| - 1;
      assert pages == pages[..n] + [pages[n]];
      PagesAre(pages[..n], expected, where, p);
    }
  }

  lemma {:induction false} ExpectedIs(pages: seq<string>, expected: map<string, nat>, t: Tally, unreported: set<string>,
                                      p: Problem)
    requires t.where.Keys == t.results.Keys && forall q :: q in pages ==> q in expected
    ensures p in AllExpectedProblems(pages, expected, t, unreported) <==>
            match p
            case InNoReport(page) => page in pages && page !in t.where && page !in unreported
            case WrongExec(page) => page in pages && page in t.results && t.results[page].exec != expected[page]
            case WrongReached(page) => page in pages && page in t.results && t.results[page].reached != expected[page]
            case PageFailed(page) =>
              page in pages && page in t.results && t.results[page].reached == expected[page] && !t.results[page].passed
            case _ => false
  {
    if pages != [] {
      var n := |pages| - 1;
      assert pages == pages[..n] + [pages[n]];
      ExpectedIs(pages[..n], expected, t, unreported, p);
      OneIs(pages[n], expected[pages[n]], t, unreported, p);
    }
  }

  lemma OneIs(page: string, exec: nat, t: Tally, unreported: set<string>, p: Problem)
    requires t.where.Keys == t.results.Keys
    ensures p in ExpectedProblems(page, exec, t, unreported) <==>
            match p
            case InNoReport(q) => q == page && page !in t.where && page !in unreported
            case WrongExec(q) => q == page && page in t.results && t.results[page].exec != exec
            case WrongReached(q) => q == page && page in t.results && t.results[page].reached != exec
            case PageFailed(q) =>
              q == page && page in t.results && t.results[page].reached == exec && !t.results[page].passed
            case _ => false
  {
  }

  // --- The total ---

  lemma {:induction false} HasLast(plan: Plan, files: seq<File>, page: string, n: nat) returns (i: nat)
    requires n <= |files| && (forall j: nat :: n <= j < |files| ==> !Has(plan, files, j, page))
    requires HoldersOf(plan, files, page) != {}
    ensures IsLast(plan, files, i, page) && IsResult(files, i, page)
  {
    hide Counts;
    var some :| some in HoldersOf(plan, files, page);
    if Has(plan, files, n - 1, page) {
      i := n - 1;
      CountsInside(plan, files, i);
    } else {
      i := HasLast(plan, files, page, n - 1);
    }
  }

  lemma ReachedOnIs(plan: Plan, files: seq<File>, page: string)
    ensures var results := ReadAll(plan, files).results;
            ReachedOn(plan, files, page) == if page in results then results[page].reached else 0
  {
    hide Counts, IsLast, ReadAll, HoldersOf;
    HeldIs(plan, files, page);
    if page in ReadAll(plan, files).results {
      var i := HasLast(plan, files, page, |files|);
    }
  }

  /** What each page that runs adds. */
  function Added(expected: map<string, nat>, results: map<string, PageResult>): map<string, nat> {
    map p | p in expected :: if p in results then results[p].reached else 0
  }

  lemma {:induction false} ReachedIs(pages: seq<string>, expected: map<string, nat>, results: map<string, PageResult>)
    requires forall p :: p in pages ==> p in results
    ensures Reached(pages, expected, results)
            == SummaryFacts.SumOver(Filter(pages, p => p in expected), Added(expected, results))
  {
    if pages != [] {
      var n := |pages| - 1;
      assert pages == pages[..n] + [pages[n]];
      ReachedIs(pages[..n], expected, results);
      var rest := Filter(pages[..n], p => p in expected);
      if pages[n] in expected {
        assert (rest + [pages[n]])[..|rest|] == rest;
      } else {
        assert rest + [] == rest;
      }
    }
  }

  lemma {:induction false} TotalIs(docs: seq<Doc>, plan: Plan, files: seq<File>, expected: map<string, nat>)
    requires forall p :: p in SummaryFacts.RunningList(docs) ==> p in expected
    ensures TotalReached(docs, plan, files)
            == SummaryFacts.SumOver(SummaryFacts.RunningList(docs), Added(expected, ReadAll(plan, files).results))
  {
    hide ReadAll, ReachedOn;
    if docs != [] {
      var n := |docs| - 1;
      var list := SummaryFacts.RunningList(docs[..n]);
      assert forall p :: p in list ==> p in SummaryFacts.RunningList(docs);
      TotalIs(docs[..n], plan, files, expected);
      ReachedOnIs(plan, files, docs[n].path);
      if docs[n].exec > 0 {
        assert SummaryFacts.RunningList(docs) == list + [docs[n].path];
        assert docs[n].path in SummaryFacts.RunningList(docs);
        assert (list + [docs[n].path])[..|list|] == list;
      } else {
        assert SummaryFacts.RunningList(docs) == list;
      }
    }
  }

  lemma {:induction false} ZerosDrop(list: seq<string>, expected: map<string, nat>, results: map<string, PageResult>)
    requires forall p :: p in list ==> p in expected
    ensures SummaryFacts.SumOver(list, Added(expected, results))
            == SummaryFacts.SumOver(Filter(list, p => p in results), Added(expected, results))
  {
    if list != [] {
      var n := |list| - 1;
      assert list == list[..n] + [list[n]];
      ZerosDrop(list[..n], expected, results);
      var rest := Filter(list[..n], p => p in results);
      if list[n] in results {
        assert (rest + [list[n]])[..|rest|] == rest;
      } else {
        assert rest + [] == rest;
      }
    }
  }

  lemma {:induction false} FilterOnce(s: seq<string>, keep: string -> bool)
    requires NoRepeats(s)
    ensures NoRepeats(Filter(s, keep))
  {
    if s != [] {
      var n := |s| - 1;
      FilterOnce(s[..n], keep);
      var rest := Filter(s[..n], keep);
      forall k | 0 <= k < |rest| ensures rest[k] != s[n] {
        assert rest[k] in rest && rest[k] in s[..n];
      }
    }
  }

  /** The total the summary takes is the one of the pages that run. */
  lemma TotalAgrees(docs: seq<Doc>, files: seq<File>)
    requires DistinctPaths(docs)
    ensures var plan := PlanOf(docs);
            var results := ReadAll(plan, files).results;
            Reached(Sorted(results.Keys), ExpectedPages(docs), results) == TotalReached(docs, plan, files)
  {
    hide PlanOf, ReadAll, ExpectedPages, Sorted, StrictlySorted, Filter, SummaryFacts.RunningList, Added;
    hide SummaryFacts.SumOver, Reached, TotalReached;
    var plan, expected := PlanOf(docs), ExpectedPages(docs);
    var results := ReadAll(plan, files).results;
    var pages, list := Sorted(results.Keys), SummaryFacts.RunningList(docs);
    SummaryFacts.ExpectedAre(docs);
    SummaryFacts.ExpectedSum(docs);
    ReachedIs(pages, expected, results);
    TotalIs(docs, plan, files, expected);
    ZerosDrop(list, expected, results);
    SortedHasNone(results.Keys);
    FilterOnce(pages, p => p in expected);
    FilterOnce(list, p => p in results);
    AddedTo(expected, results);
    SummaryFacts.SumInAnyOrder(Filter(pages, p => p in expected), Filter(list, p => p in results),
                               Added(expected, results));
  }

  lemma AddedTo(expected: map<string, nat>, results: map<string, PageResult>)
    ensures Added(expected, results).Keys == expected.Keys
  {
  }

  lemma SortedHasNone(keys: set<string>)
    ensures NoRepeats(Sorted(keys))
  {
  }

  // --- All problems ---

  /** A problem is raised exactly when the files have it. */
  lemma RaisedIs(e: Enrolment, files: seq<File>, p: Problem)
    requires Loaded(e) && files != []
    ensures SummaryOf(e, files) == Accepted <==> forall q :: !Raises(e, files, q)
    ensures SummaryOf(e, files).Failed? ==> (p in SummaryOf(e, files).problems <==> Raises(e, files, p))
  {
    hide PlanOf, ReadAll, ExpectedPages, Sorted, StrictlySorted, Reached, JudgeProblems, Raises, Loaded;
    SameKeys(PlanOf(e.documents), files);
    var problems := JudgeProblems(e, ReadAll(PlanOf(e.documents), files));
    forall q ensures q in problems <==> Raises(e, files, q) {
      JudgedIs(e, files, q);
    }
    assert problems != [] ==> problems[0] in problems;
  }

  lemma JudgedIs(e: Enrolment, files: seq<File>, p: Problem)
    requires Loaded(e)
    requires ReadAll(PlanOf(e.documents), files).where.Keys == ReadAll(PlanOf(e.documents), files).results.Keys
    ensures p in JudgeProblems(e, ReadAll(PlanOf(e.documents), files)) <==> Raises(e, files, p)
  {
    hide PlanOf, ReadAll, ExpectedPages, Sorted, StrictlySorted, Reached, SomeFor, HoldersOf, IsLast, InPlan;
    hide AllExpectedProblems, PagesProblems, Unseen, Unreported, TotalReached, ReadHas;
    var plan, expected := PlanOf(e.documents), ExpectedPages(e.documents);
    var t := ReadAll(plan, files);
    ReadProblemIs(plan, files, p);
    OwnKinds(plan, files, p);
    UnseenIs(plan, t.seen, p);
    PagesAre(Sorted(t.where.Keys), expected, t.where, p);
    ExpectedIs(Sorted(expected.Keys), expected, t, Unreported(plan, t.seen), p);
    TotalAgrees(e.documents, files);
    if p.NoReport? {
      SeenIs(plan, files, p.shard);
    } else if p.NotAPage? || p.RanTimes? || p.InNoReport? || p.WrongExec? || p.WrongReached? || p.PageFailed? {
      OfPage(plan, files, p.page);
    }
  }

  lemma OwnKinds(plan: Plan, files: seq<File>, p: Problem)
    ensures ReadHas(plan, files, p) ==>
              p.NotReadable? || p.NotAReport? || p.BadLabel? || p.NotPlanned? || p.ReportedTwice? || p.Stopped?
  {
  }

  lemma OfPage(plan: Plan, files: seq<File>, page: string)
    ensures var t := ReadAll(plan, files);
            && (page in t.where <==> HoldersOf(plan, files, page) != {})
            && (page in t.results <==> page in t.where)
            && (page in t.where ==> |t.where[page]| == |HoldersOf(plan, files, page)|)
            && (page in Unreported(plan, t.seen) <==> IsUnreported(plan, files, page))
            && (page in t.where ==> exists i: nat :: IsLast(plan, files, i, page) && IsResult(files, i, page))
            && forall i: nat :: IsLast(plan, files, i, page) && IsResult(files, i, page) ==>
                 page in t.results && t.results[page] == files[i].pages[page]
  {
    hide ReadAll, SomeFor, HoldersOf, IsLast, InPlan;
    HeldIs(plan, files, page);
    if HoldersOf(plan, files, page) != {} {
      var i := HasLast(plan, files, page, |files|);
    }
    UnreportedIs(plan, ReadAll(plan, files).seen, page);
    forall k | 0 <= k < |plan|
      ensures plan[k].0 in ReadAll(plan, files).seen <==> SomeFor(files, plan[k].0)
    {
      SeenIs(plan, files, plan[k].0);
      PlannedIs(plan, k);
    }
  }

  lemma PlannedIs(plan: Plan, k: nat)
    requires k < |plan|
    ensures InPlan(plan, plan[k].0)
  {
  }
}
