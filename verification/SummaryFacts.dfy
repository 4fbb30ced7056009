/** What an accepted summary proves, and which reports are accepted. */
module SummaryFacts {
  import opened Ordering
  import opened Shards
  import opened Runner
  import opened Summary
  import opened Sequences

  // --- Reports that add no problem ---

  /** A report of a planned shard that did not stop. */
  predicate Fit(plan: Plan, f: File) {
    f.Report? && ParseShard(f.shard).Some? && InPlan(plan, ParseShard(f.shard).value) && !f.stopped
  }

  function ShardOf(plan: Plan, f: File): Shard
    requires Fit(plan, f)
  {
    ParseShard(f.shard).value
  }

  /** Every file is a fit report, of a shard of its own. */
  predicate AllFit(plan: Plan, files: seq<File>) {
    && (forall i :: 0 <= i < |files| ==> Fit(plan, files[i]))
    && (forall i, j :: 0 <= i < j < |files| ==> ShardOf(plan, files[i]) != ShardOf(plan, files[j]))
  }

  /** Report `i` says that it ran a page. */
  predicate Holds(files: seq<File>, i: nat, page: string) {
    i < |files| && files[i].Report? && page in files[i].pages
  }

  ghost predicate Held(files: seq<File>, page: string) {
    exists i :: Holds(files, i, page)
  }

  ghost predicate HeldOnce(files: seq<File>, page: string) {
    forall i, j :: i < j && Holds(files, i, page) ==> !Holds(files, j, page)
  }

  /** How many of the reports hold a page. */
  function Holders(files: seq<File>, page: string): nat {
    if files == [] then 0
    else Holders(files[..|files| - 1], page) + if Holds(files, |files| - 1, page) then 1 else 0
  }

  lemma {:induction false} AllFitPrefix(plan: Plan, files: seq<File>, n: nat)
    requires n < |files|
    ensures AllFit(plan, files[..n + 1]) <==>
              && AllFit(plan, files[..n]) && Fit(plan, files[n])
              && forall i :: 0 <= i < n ==> ShardOf(plan, files[i]) != ShardOf(plan, files[n])
  {
    hide Fit, ShardOf;
    var more := files[..n + 1];
    assert forall i :: 0 <= i < n ==> more[i] == files[..n][i];
    assert more[n] == files[n];
  }

  /** Reading fit reports adds no problem, and reading any other does; and then the shards
      seen are theirs, and each page stands where they hold it. */
  lemma {:induction false} ReadFit(plan: Plan, files: seq<File>)
    ensures var t := ReadAll(plan, files);
            && (t.problems == [] <==> AllFit(plan, files))
            && (AllFit(plan, files) ==>
                  forall s :: s in t.seen <==> exists i :: 0 <= i < |files| && ShardOf(plan, files[i]) == s)
  {
    hide ParseShard, InPlan, Fit, ShardOf, Accept;
    if files != [] {
      var n := |files| - 1;
      assert files[..n + 1] == files;
      ReadFit(plan, files[..n]);
      AllFitPrefix(plan, files, n);
      var before := ReadAll(plan, files[..n]);
      assert forall i :: 0 <= i < n ==> files[..n][i] == files[i];
      ReadOne(plan, before, n, files[n]);
    }
  }

  lemma ReadOne(plan: Plan, t: Tally, i: nat, f: File)
    ensures var after := Read(plan, t, i, f);
            && t.problems <= after.problems
            && (after.problems == t.problems <==> Fit(plan, f) && ShardOf(plan, f) !in t.seen)
            && (Fit(plan, f) && ShardOf(plan, f) !in t.seen ==> after == Accept(t, ShardOf(plan, f), f)
                                                                && after.seen == t.seen + {ShardOf(plan, f)})
  {
    hide ParseShard, InPlan;
  }

  /** The result a report gives of a page. */
  ghost predicate Gives(files: seq<File>, i: nat, page: string, r: PageResult) {
    Holds(files, i, page) && files[i].pages[page] == r
  }

  lemma PrefixHolds(files: seq<File>, i: nat, page: string)
    requires files != []
    ensures Holds(files, i, page) <==>
            Holds(files[..|files| - 1], i, page) || (i == |files| - 1 && Holds(files, |files| - 1, page))
  {
  }

  /** A page stands in the tally as often as reports hold it, with a report's own result. */
  lemma {:induction false} WhereHeld(plan: Plan, files: seq<File>, page: string)
    requires AllFit(plan, files)
    ensures var t := ReadAll(plan, files);
            && t.where.Keys == t.results.Keys
            && (page in t.where <==> Holders(files, page) > 0)
            && (page in t.where ==>
                  && |t.where[page]| == Holders(files, page)
                  && exists i :: Gives(files, i, page, t.results[page]))
  {
    hide ParseShard, InPlan, Fit, ShardOf, Read;
    SameKeys(plan, files);
    if files != [] {
      var n := |files| - 1;
      assert files[..n + 1] == files;
      AllFitPrefix(plan, files, n);
      ReadFit(plan, files[..n]);
      assert forall i :: 0 <= i < n ==> files[..n][i] == files[i];
      WhereHeld(plan, files[..n], page);
      var before := ReadAll(plan, files[..n]);
      ReadOne(plan, before, n, files[n]);
      FitIsReport(plan, files[n]);
      if page in files[n].pages {
        assert Gives(files, n, page, files[n].pages[page]);
      } else if page in before.where {
        var i :| Gives(files[..n], i, page, before.results[page]);
        assert Gives(files, i, page, before.results[page]);
      }
    }
  }

  lemma FitIsReport(plan: Plan, f: File)
    requires Fit(plan, f)
    ensures f.Report?
  {
  }

  /** The last report adds its own pages to those held above it. */
  lemma HeldSplits(files: seq<File>, page: string)
    requires files != []
    ensures Held(files, page) <==> Held(files[..|files| - 1], page) || Holds(files, |files| - 1, page)
  {
    hide Holds;
    if Held(files, page) {
      var i :| Holds(files, i, page);
      PrefixHolds(files, i, page);
    }
    if Held(files[..|files| - 1], page) {
      var i :| Holds(files[..|files| - 1], i, page);
      PrefixHolds(files, i, page);
    }
  }

  lemma HeldOnceSplits(files: seq<File>, page: string)
    requires files != []
    ensures var n := |files| - 1;
            HeldOnce(files, page) <==>
            HeldOnce(files[..n], page) && (Holds(files, n, page) ==> !Held(files[..n], page))
  {
    hide Holds;
    var n := |files| - 1;
    forall i: nat
      ensures Holds(files, i, page) <==> Holds(files[..n], i, page) || (i == n && Holds(files, n, page))
      ensures Holds(files[..n], i, page) ==> i < n && Holds(files, i, page)
    {
      PrefixHolds(files, i, page);
      if Holds(files[..n], i, page) {
        HoldsInRange(files[..n], i, page);
      }
    }
  }

  lemma {:induction false} HeldBySome(files: seq<File>, page: string)
    ensures Holders(files, page) > 0 <==> Held(files, page)
  {
    hide Holds, Held;
    if files == [] {
      NoneHold(page);
    } else {
      HeldBySome(files[..|files| - 1], page);
      HeldSplits(files, page);
    }
  }

  lemma NoneHold(page: string)
    ensures !Held([], page) && HeldOnce([], page)
  {
  }

  /** At most one report holds a page exactly when no two do. */
  lemma {:induction false} HeldByOne(files: seq<File>, page: string)
    ensures Holders(files, page) <= 1 <==> HeldOnce(files, page)
  {
    hide Holds, Held, HeldOnce;
    if files == [] {
      NoneHold(page);
    } else {
      HeldByOne(files[..|files| - 1], page);
      HeldBySome(files[..|files| - 1], page);
      HeldOnceSplits(files, page);
    }
  }

  lemma HoldsInRange(files: seq<File>, i: nat, page: string)
    requires Holds(files, i, page)
    ensures i < |files|
  {
  }

  // --- The judgement ---

  predicate Right(r: PageResult, exec: nat) {
    r.exec == exec && r.reached == exec && r.passed
  }

  lemma {:induction false} NoneUnseen(plan: Plan, seen: set<Shard>)
    ensures Unseen(plan, seen) == [] <==> forall k :: 0 <= k < |plan| ==> plan[k].0 in seen
    ensures Unseen(plan, seen) == [] ==> Unreported(plan, seen) == {}
  {
    if plan != [] {
      var n := |plan| - 1;
      NoneUnseen(plan[..n], seen);
      assert forall k :: 0 <= k < n ==> plan[..n][k] == plan[k];
    }
  }

  lemma {:induction false} PagesRight(pages: seq<string>, expected: map<string, nat>, where: map<string, seq<Shard>>)
    requires forall p :: p in pages ==> p in where
    ensures PagesProblems(pages, expected, where) == [] <==>
            forall p :: p in pages ==> p in expected && |where[p]| <= 1
  {
    if pages != [] {
      var n := |pages| - 1;
      assert pages == pages[..n] + [pages[n]];
      PagesRight(pages[..n], expected, where);
    }
  }

  lemma {:induction false} ExpectedRight(pages: seq<string>, expected: map<string, nat>, t: Tally)
    requires t.where.Keys == t.results.Keys && forall p :: p in pages ==> p in expected
    ensures AllExpectedProblems(pages, expected, t, {}) == [] <==>
            forall p :: p in pages ==> p in t.results && Right(t.results[p], expected[p])
  {
    if pages != [] {
      var n := |pages| - 1;
      assert pages == pages[..n] + [pages[n]];
      ExpectedRight(pages[..n], expected, t);
      assert ExpectedProblems(pages[n], expected[pages[n]], t, {}) == [] <==>
             pages[n] in t.results && Right(t.results[pages[n]], expected[pages[n]]);
    }
  }

  // --- The total ---

  function SumOver(pages: seq<string>, counts: map<string, nat>): nat
    requires forall p :: p in pages ==> p in counts
  {
    if pages == [] then 0
    else
      assert pages == pages[..|pages| - 1] + [pages[|pages| - 1]];
      SumOver(pages[..|pages| - 1], counts) + counts[pages[|pages| - 1]]
  }

  lemma {:induction false} ReachedIsSum(pages: seq<string>, expected: map<string, nat>,
                                        results: map<string, PageResult>)
    requires forall p :: p in pages ==> p in results && p in expected && Right(results[p], expected[p])
    ensures Reached(pages, expected, results) == SumOver(pages, expected)
  {
    if pages != [] {
      var n := |pages| - 1;
      assert pages == pages[..n] + [pages[n]];
      ReachedIsSum(pages[..n], expected, results);
    }
  }

  function Without(s: seq<string>, i: nat): seq<string>
    requires i < |s|
  {
    s[..i] + s[i + 1..]
  }

  lemma {:induction false} SumWithout(pages: seq<string>, counts: map<string, nat>, i: nat)
    requires i < |pages| && forall p :: p in pages ==> p in counts
    ensures forall p :: p in Without(pages, i) ==> p in pages
    ensures SumOver(pages, counts) == SumOver(Without(pages, i), counts) + counts[pages[i]]
  {
    var n := |pages| - 1;
    assert pages == pages[..n] + [pages[n]];
    if i < n {
      SumWithout(pages[..n], counts, i);
      var rest := Without(pages, i);
      assert rest[..|rest| - 1] == Without(pages[..n], i);
    } else {
      assert Without(pages, i) == pages[..n];
    }
  }

  /** Adding up over the same pages in another order gives the same. */
  lemma {:induction false} SumInAnyOrder(a: seq<string>, b: seq<string>, counts: map<string, nat>)
    requires NoRepeats(a) && NoRepeats(b) && (forall p :: p in a <==> p in b)
    requires forall p :: p in a ==> p in counts
    ensures SumOver(a, counts) == SumOver(b, counts)
  {
    if a == [] {
      Inhabited(b);
    } else {
      var n := |a| - 1;
      assert a == a[..n] + [a[n]];
      assert a[n] in b;
      var i :| 0 <= i < |b| && b[i] == a[n];
      SumWithout(b, counts, i);
      forall p
        ensures p in a[..n] <==> p in Without(b, i)
      {
        WithoutHas(b, i, p);
        WithoutHas(a, n, p);
        assert Without(a, n) == a[..n];
      }
      WithoutKeeps(b, i);
      SumInAnyOrder(a[..n], Without(b, i), counts);
    }
  }

  lemma WithoutHas(s: seq<string>, i: nat, p: string)
    requires i < |s| && NoRepeats(s)
    ensures p in Without(s, i) <==> p in s && p != s[i]
  {
    if p in s && p != s[i] {
      var k :| 0 <= k < |s| && s[k] == p;
      if k < i {
        assert s[..i][k] == p;
      } else {
        assert s[i + 1..][k - i - 1] == p;
      }
    }
  }

  lemma WithoutKeeps(s: seq<string>, i: nat)
    requires i < |s| && NoRepeats(s)
    ensures NoRepeats(Without(s, i))
  {
  }

  /** The paths of the pages that run, in enrolment order. */
  function RunningList(docs: seq<Doc>): seq<string> {
    if docs == [] then []
    else RunningList(docs[..|docs| - 1]) + (if Runs(docs[|docs| - 1]) then [docs[|docs| - 1].path] else [])
  }

  /** The pages that run with their counts are the enrolment's own. */
  lemma {:induction false} ExpectedAre(docs: seq<Doc>)
    requires DistinctPaths(docs)
    ensures forall p :: p in ExpectedPages(docs) <==> p in RunningList(docs)
    ensures forall d :: d in docs && Runs(d) ==> d.path in ExpectedPages(docs) && ExpectedPages(docs)[d.path] == d.exec
    ensures forall p :: p in RunningList(docs) ==> exists d :: d in docs && d.path == p
  {
    if docs != [] {
      var n := |docs| - 1;
      assert docs == docs[..n] + [docs[n]];
      ExpectedAre(docs[..n]);
    }
  }

  lemma LastIsNew(docs: seq<Doc>)
    requires docs != [] && DistinctPaths(docs)
    ensures docs[|docs| - 1].path !in RunningList(docs[..|docs| - 1])
  {
    var n := |docs| - 1;
    ExpectedAre(docs[..n]);
    forall p | p in RunningList(docs[..n])
      ensures p != docs[n].path
    {
      var d :| d in docs[..n] && d.path == p;
    }
  }

  lemma {:induction false} ExpectedSum(docs: seq<Doc>)
    requires DistinctPaths(docs)
    ensures forall p :: p in RunningList(docs) ==> p in ExpectedPages(docs)
    ensures NoRepeats(RunningList(docs))
    ensures SumOver(RunningList(docs), ExpectedPages(docs)) == SumExec(docs)
  {
    hide RunningList, ExpectedPages, SumExec, SumOver, Runs;
    ExpectedAre(docs);
    LastIsAdded(docs);
    if docs != [] {
      var n := |docs| - 1;
      ExpectedSum(docs[..n]);
      LastIsNew(docs);
      if Runs(docs[n]) {
        SumStep(RunningList(docs[..n]), ExpectedPages(docs[..n]), docs[n]);
      }
    }
  }

  lemma LastIsAdded(docs: seq<Doc>)
    ensures docs == [] ==> RunningList(docs) == [] && SumOver([], ExpectedPages(docs)) == SumExec(docs) == 0
    ensures docs != [] ==>
              var n := |docs| - 1;
              var list, pages, sum := RunningList(docs[..n]), ExpectedPages(docs[..n]), SumExec(docs[..n]);
              && RunningList(docs) == (if Runs(docs[n]) then list + [docs[n].path] else list)
              && ExpectedPages(docs) == (if Runs(docs[n]) then pages[docs[n].path := docs[n].exec] else pages)
              && SumExec(docs) == (if Runs(docs[n]) then sum + docs[n].exec else sum)
  {
  }

  lemma SumStep(list: seq<string>, before: map<string, nat>, last: Doc)
    requires last.path !in list && forall p :: p in list ==> p in before
    ensures var more, after := list + [last.path], before[last.path := last.exec];
            && (forall p :: p in more ==> p in after)
            && SumOver(more, after) == SumOver(list, before) + last.exec
  {
    assert (list + [last.path])[..|list|] == list;
    SumUnchanged(list, before, before[last.path := last.exec]);
  }

  lemma {:induction false} SumUnchanged(pages: seq<string>, a: map<string, nat>, b: map<string, nat>)
    requires forall p :: p in pages ==> p in a && p in b && a[p] == b[p]
    ensures SumOver(pages, a) == SumOver(pages, b)
  {
    if pages != [] {
      var n := |pages| - 1;
      assert pages == pages[..n] + [pages[n]];
      SumUnchanged(pages[..n], a, b);
    }
  }

  lemma SortedNoRepeats(s: set<string>)
    ensures NoRepeats(Sorted(s))
  {
  }

  /** Where every result is right, the total is the declared one. */
  lemma TotalMatches(e: Enrolment, results: map<string, PageResult>)
    requires Loaded(e)
    requires var expected := ExpectedPages(e.documents);
             && results.Keys == expected.Keys
             && forall p :: p in results ==> Right(results[p], expected[p])
    ensures Reached(Sorted(results.Keys), ExpectedPages(e.documents), results) == e.execTotal
  {
    hide SumExec, RunningList;
    var expected := ExpectedPages(e.documents);
    var pages, list := Sorted(results.Keys), RunningList(e.documents);
    ExpectedAre(e.documents);
    ExpectedSum(e.documents);
    ReachedIsSum(pages, expected, results);
    SortedNoRepeats(results.Keys);
    SumInAnyOrder(pages, list, expected);
  }

  // --- The summary is exact ---

  /** A page of a report is one that runs, with the enrolment's counts and a pass. */
  predicate RightAt(files: seq<File>, expected: map<string, nat>, i: nat, page: string) {
    Holds(files, i, page) ==> page in expected && Right(files[i].pages[page], expected[page])
  }

  ghost predicate HeldRight(files: seq<File>, expected: map<string, nat>) {
    forall i: nat, p :: RightAt(files, expected, i, p)
  }

  /** Some fit report is this shard's. */
  ghost predicate Reports(plan: Plan, files: seq<File>, shard: Shard) {
    exists i :: 0 <= i < |files| && Fit(plan, files[i]) && ShardOf(plan, files[i]) == shard
  }

  ghost predicate PlanReported(plan: Plan, files: seq<File>) {
    forall k :: 0 <= k < |plan| ==> Reports(plan, files, plan[k].0)
  }

  /** What accepted reports are: one fit report of every planned shard; together they hold
      every page that runs, each in one report only, with the enrolment's count of blocks
      run and reached and a pass; and no other page. */
  ghost predicate AllRanOnce(e: Enrolment, files: seq<File>) {
    var plan, expected := PlanOf(e.documents), ExpectedPages(e.documents);
    && AllFit(plan, files) && PlanReported(plan, files)
    && HeldRight(files, expected)
    && (forall p :: HeldOnce(files, p))
    && (forall p :: p in expected ==> Held(files, p))
  }

  /** The tally of fit reports in terms of them. */
  lemma TallyOf(plan: Plan, files: seq<File>, page: string)
    requires AllFit(plan, files)
    ensures var t := ReadAll(plan, files);
            && t.where.Keys == t.results.Keys
            && (page in t.where <==> Held(files, page))
            && (page in t.where ==>
                  && (|t.where[page]| <= 1 <==> HeldOnce(files, page))
                  && exists i :: Gives(files, i, page, t.results[page]))
  {
    hide ReadAll, AllFit, Held, HeldOnce, Gives;
    WhereHeld(plan, files, page);
    HeldBySome(files, page);
    HeldByOne(files, page);
  }

  /** With a page in one report, the result that counts is that report's. */
  lemma ResultIsTheReports(plan: Plan, files: seq<File>, i: nat, page: string)
    requires AllFit(plan, files) && HeldOnce(files, page) && Holds(files, i, page)
    ensures var t := ReadAll(plan, files);
            t.where.Keys == t.results.Keys && page in t.results && t.results[page] == files[i].pages[page]
  {
    hide ReadAll, AllFit, Holds;
    TallyOf(plan, files, page);
    var j :| Gives(files, j, page, ReadAll(plan, files).results[page]);
  }

  lemma NotHeldIsOnce(files: seq<File>, page: string)
    requires !Held(files, page)
    ensures HeldOnce(files, page)
  {
  }

  lemma NoProblemsParts(e: Enrolment, t: Tally)
    requires t.where.Keys == t.results.Keys && Unreported(PlanOf(e.documents), t.seen) == {}
    ensures var plan, expected := PlanOf(e.documents), ExpectedPages(e.documents);
            JudgeProblems(e, t) == [] <==>
              && t.problems == [] && Unseen(plan, t.seen) == []
              && PagesProblems(Sorted(t.where.Keys), expected, t.where) == []
              && AllExpectedProblems(Sorted(expected.Keys), expected, t, {}) == []
              && Reached(Sorted(t.results.Keys), expected, t.results) == e.execTotal
  {
    hide PlanOf, ExpectedPages, Sorted, Reached, PagesProblems, AllExpectedProblems, Unseen, Unreported;
  }

  lemma PartsOf(e: Enrolment, t: Tally)
    requires t.where.Keys == t.results.Keys && JudgeProblems(e, t) == []
    ensures t.problems == [] && Unseen(PlanOf(e.documents), t.seen) == []
  {
    hide PlanOf, ExpectedPages, Sorted, Reached, PagesProblems, AllExpectedProblems, Unseen, Unreported, Only;
  }

  /** Soundness: an accepted summary means all ran once. */
  lemma AcceptedMeansAllRan(e: Enrolment, files: seq<File>)
    requires SummaryOf(e, files) == Accepted
    ensures AllRanOnce(e, files)
  {
    hide PlanOf, ExpectedPages, ReadAll, AllFit, ShardOf, Sorted, PagesProblems, AllExpectedProblems, Unseen;
    hide Unreported, Reached;
    hide Right, JudgeProblems, Holds, Held, HeldOnce, Gives, PlanReported;
    var plan, expected := PlanOf(e.documents), ExpectedPages(e.documents);
    var t := ReadAll(plan, files);
    SameKeys(plan, files);
    assert JudgeProblems(e, t) == [];
    PartsOf(e, t);
    NoneUnseen(plan, t.seen);
    NoProblemsParts(e, t);
    ReadFit(plan, files);
    PagesRight(Sorted(t.where.Keys), expected, t.where);
    ExpectedRight(Sorted(expected.Keys), expected, t);
    AllReported(plan, files, t.seen);
    forall p
      ensures HeldOnce(files, p)
      ensures p in expected ==> Held(files, p)
      ensures Held(files, p) ==> p in expected && p in t.results && Right(t.results[p], expected[p])
    {
      TallyOf(plan, files, p);
      if !Held(files, p) {
        NotHeldIsOnce(files, p);
      }
      assert p in t.where ==> p in Sorted(t.where.Keys);
      assert p in expected ==> p in Sorted(expected.Keys);
    }
    forall i: nat, p
      ensures RightAt(files, expected, i, p)
    {
      if Holds(files, i, p) {
        HoldsHeld(files, i, p);
        ResultIsTheReports(plan, files, i, p);
      }
    }
  }

  lemma AllReported(plan: Plan, files: seq<File>, seen: set<Shard>)
    requires AllFit(plan, files) && forall k :: 0 <= k < |plan| ==> plan[k].0 in seen
    requires forall s :: s in seen <==> exists i :: 0 <= i < |files| && ShardOf(plan, files[i]) == s
    ensures PlanReported(plan, files)
  {
    hide ShardOf, Fit;
  }

  lemma HoldsHeld(files: seq<File>, i: nat, page: string)
    requires Holds(files, i, page)
    ensures i < |files| && files[i].Report? && page in files[i].pages && Held(files, page)
  {
  }

  /** Completeness: reports of which all ran once are accepted; with the rest right, the
      total never fails alone. */
  lemma AllRanIsAccepted(e: Enrolment, files: seq<File>)
    requires Loaded(e) && files != [] && AllRanOnce(e, files)
    ensures SummaryOf(e, files) == Accepted
  {
    hide PlanOf, ExpectedPages, ReadAll, AllFit, ShardOf, Sorted, PagesProblems, AllExpectedProblems, Unseen;
    hide Unreported, Reached;
    hide Right, JudgeProblems, Holds, Held, HeldOnce, Loaded;
    var plan, expected := PlanOf(e.documents), ExpectedPages(e.documents);
    var t := ReadAll(plan, files);
    SameKeys(plan, files);
    ReadFit(plan, files);
    NoneUnseen(plan, t.seen);
    forall p
      ensures p in t.where <==> Held(files, p)
      ensures p in t.results ==> p in expected && Right(t.results[p], expected[p]) && |t.where[p]| <= 1
    {
      TallyOf(plan, files, p);
      if p in t.results {
        var i :| Gives(files, i, p, t.results[p]);
        assert RightAt(files, expected, i, p);
      }
    }
    assert t.results.Keys == expected.Keys;
    PagesRight(Sorted(t.where.Keys), expected, t.where);
    ExpectedRight(Sorted(expected.Keys), expected, t);
    TotalMatches(e, t.results);
    NoProblemsParts(e, t);
  }

  /** The summary accepts exactly the reports of which all ran once. */
  lemma SummaryIsExact(e: Enrolment, files: seq<File>)
    requires Loaded(e)
    ensures SummaryOf(e, files) == Accepted <==> files != [] && AllRanOnce(e, files)
  {
    hide AllRanOnce, JudgeProblems, ReadAll;
    if SummaryOf(e, files) == Accepted {
      AcceptedMeansAllRan(e, files);
    }
    if files != [] && AllRanOnce(e, files) {
      AllRanIsAccepted(e, files);
    }
  }

  /** A report of a run that stopped is never accepted, whatever else is in it or beside it. */
  lemma StoppedIsRefused(e: Enrolment, files: seq<File>, f: File)
    requires f in files && f.Report? && f.stopped
    ensures SummaryOf(e, files) != Accepted
  {
    hide SummaryOf, PlanOf, ExpectedPages, HeldOnce, Held, HeldRight, PlanReported, ParseShard, InPlan;
    var i :| 0 <= i < |files| && files[i] == f;
    assert !Fit(PlanOf(e.documents), files[i]);
    if SummaryOf(e, files) == Accepted {
      AcceptedMeansAllRan(e, files);
    }
  }
}
