/** From the plan through the shards' runs to the summary: when every shard runs its pages
    and all pass, the summary accepts, unless a shard count has no label. */
module Pipeline {
  import opened Shards
  import opened PlanFacts
  import opened Runner
  import opened Summary
  import opened SummaryFacts

  // --- Pages stand in one shard ---

  lemma {:induction false} RunBagAtMostOnce(docs: seq<Doc>, page: string)
    requires DistinctPaths(docs)
    ensures RunBag(docs, PROFILES)[page] <= 1
    ensures RunBag(docs, PROFILES)[page] > 0 ==> exists d :: d in docs && Runs(d) && d.path == page
    ensures forall d :: d in docs && Runs(d) && d.path == page ==> RunBag(docs, PROFILES)[page] > 0
  {
    hide ProfileOf, Runs;
    if docs != [] {
      var n := |docs| - 1;
      assert docs == docs[..n] + [docs[n]];
      RunBagAtMostOnce(docs[..n], page);
    }
  }

  lemma {:induction false} InBag(plan: Plan, page: string)
    ensures Bag(plan)[page] > 0 <==> exists k :: 0 <= k < |plan| && page in plan[k].1
  {
    if plan != [] {
      var n := |plan| - 1;
      InBag(plan[..n], page);
      assert forall k :: 0 <= k < n ==> plan[..n][k] == plan[k];
      assert page in plan[n].1 <==> page in multiset(plan[n].1);
    }
  }

  lemma {:induction false} InBagTwice(plan: Plan, i: nat, j: nat, page: string)
    requires i < j < |plan| && page in plan[i].1 && page in plan[j].1
    ensures Bag(plan)[page] >= 2
  {
    var n := |plan| - 1;
    if j < n {
      InBagTwice(plan[..n], i, j, page);
    } else {
      InBag(plan[..n], page);
      assert plan[..n][i] == plan[i];
      assert page in multiset(plan[n].1);
    }
  }

  /** No two entries of the plan share a page, or are the same shard. */
  lemma EntriesApart(docs: seq<Doc>, i: nat, j: nat)
    requires DistinctPaths(docs) && i < j < |PlanOf(docs)|
    ensures PlanOf(docs)[i].0 != PlanOf(docs)[j].0
    ensures forall p :: p in PlanOf(docs)[i].1 ==> p !in PlanOf(docs)[j].1
  {
    hide PlanOf, Bag, RunBag;
    var plan := PlanOf(docs);
    forall p | p in plan[i].1
      ensures p !in plan[j].1
    {
      if p in plan[j].1 {
        InBagTwice(plan, i, j, p);
        PlanIsComplete(docs);
        RunBagAtMostOnce(docs, p);
      }
    }
    ShardSize(docs, plan[i]);
    assert plan[i].1[0] in plan[i].1;
    if plan[i].0 == plan[j].0 {
      OneHandAShard(docs, plan[i], plan[j]);
    }
  }

  // --- A shard's report ---

  /** The pages a shard runs, in enrolment order. */
  function Chosen(docs: seq<Doc>, shard: Shard): seq<Doc> {
    Runner.Selected(docs, RunningPaths(docs) * PagesOfShard(docs, shard))
  }

  /** The report of a run of this shard. */
  predicate IsRunOf(docs: seq<Doc>, f: File, shard: Shard, world: World) {
    var chosen := Chosen(docs, shard);
    && f.Report? && f.shard == Label(shard)
    && Records(f.pages, chosen, world, |chosen|)
    && f.stopped == (StartedCount(chosen, world) < |chosen| || world.lateAtEnd)
  }

  /** The shard was run in time, and every page of it without a problem and with its enrolled
      blocks. */
  ghost predicate Passes(docs: seq<Doc>, shard: Shard, world: World) {
    AllPass(Chosen(docs, shard), world) && !world.lateAtEnd
  }

  /** The pages of a run are exactly the shard's, each with its enrolled count of blocks, and
      with that many reached where it passed. */
  lemma RunHolds(docs: seq<Doc>, k: nat, f: File, world: World)
    requires DistinctPaths(docs) && k < |PlanOf(docs)|
    requires IsRunOf(docs, f, PlanOf(docs)[k].0, world)
    ensures forall p :: p in f.pages <==> p in PlanOf(docs)[k].1
    ensures forall p :: p in f.pages ==>
              exists d :: d in docs && Runs(d) && d.path == p && (f.pages[p].passed ==> Right(f.pages[p], d.exec))
  {
    hide PlanOf, Runs;
    var chosen := Chosen(docs, PlanOf(docs)[k].0);
    var selected := RunningPaths(docs) * PagesOfShard(docs, PlanOf(docs)[k].0);
    ShardPages(docs, k);
    SelectedAre(docs, selected);
    KeysAreSelected(docs, selected);
    forall n | 0 <= n < |chosen|
      ensures chosen[n] in docs && Runs(chosen[n])
    {
      assert chosen[n] in chosen;
      var d :| d in docs && Runs(d) && d.path == chosen[n].path;
      SamePath(docs, d, chosen[n]);
    }
    forall p | p in f.pages
      ensures exists d :: d in docs && Runs(d) && d.path == p && (f.pages[p].passed ==> Right(f.pages[p], d.exec))
    {
      var n :| 0 <= n < |chosen| && chosen[n].path == p;
      assert f.pages[p] == Expected(chosen, world, n);
    }
  }

  /** A run passes exactly when its report is not stopped and all its pages passed. */
  lemma PassesIs(docs: seq<Doc>, f: File, shard: Shard, world: World)
    requires DistinctPaths(docs) && IsRunOf(docs, f, shard, world)
    ensures Passes(docs, shard, world) <==> !f.stopped && forall p :: p in f.pages ==> f.pages[p].passed
  {
    hide Selected, Expected, AllPass, StartedCount;
    var chosen := Chosen(docs, shard);
    AllPassIs(chosen, world);
    forall k | 0 <= k < |chosen|
      ensures chosen[k].path in f.pages && f.pages[chosen[k].path] == Expected(chosen, world, k)
    {
    }
    forall p | p in f.pages
      ensures exists k :: 0 <= k < |chosen| && chosen[k].path == p
    {
    }
  }

  lemma SamePath(docs: seq<Doc>, a: Doc, b: Doc)
    requires DistinctPaths(docs) && a in docs && b in docs && a.path == b.path
    ensures a == b
  {
  }

  /** What a shard runs is what the plan dealt it. */
  lemma ShardPages(docs: seq<Doc>, k: nat)
    requires DistinctPaths(docs) && k < |PlanOf(docs)|
    ensures forall p :: p in RunningPaths(docs) * PagesOfShard(docs, PlanOf(docs)[k].0) <==> p in PlanOf(docs)[k].1
  {
    hide PlanOf, Runs;
    var plan := PlanOf(docs);
    forall p
      ensures p in RunningPaths(docs) * PagesOfShard(docs, plan[k].0) <==> p in plan[k].1
    {
      if p in plan[k].1 {
        ShardPagesRun(docs, plan[k], p);
        var d :| d in docs && Runs(d) && d.path == p;
      }
      if p in PagesOfShard(docs, plan[k].0) {
        var j :| 0 <= j < |plan| && plan[j].0 == plan[k].0 && p in plan[j].1;
        OneHandAShard(docs, plan[j], plan[k]);
      }
    }
  }

  // --- All shards ---

  /** Each file is the report of one planned shard, and each shard has its file, in any
      order: `at[i]` is the place in the plan of file `i`'s shard. */
  ghost predicate RunsOfAll(docs: seq<Doc>, files: seq<File>, at: seq<nat>, worlds: seq<World>) {
    && |at| == |files| && |worlds| == |files|
    && (forall i :: 0 <= i < |at| ==> at[i] < |PlanOf(docs)|)
    && (forall i, j :: 0 <= i < j < |at| ==> at[i] != at[j])
    && (forall k :: 0 <= k < |PlanOf(docs)| ==> k in at)
    && (forall i :: 0 <= i < |files| ==>
          IsRunOf(docs, files[i], PlanOf(docs)[at[i]].0, worlds[i]))
  }

  ghost predicate AllRunsPass(docs: seq<Doc>, at: seq<nat>, worlds: seq<World>)
    requires |at| == |worlds| && forall i :: 0 <= i < |at| ==> at[i] < |PlanOf(docs)|
  {
    forall i :: 0 <= i < |at| ==> Passes(docs, PlanOf(docs)[at[i]].0, worlds[i])
  }

  lemma PlaceOf(at: seq<nat>, k: nat) returns (i: nat)
    requires k in at
    ensures i < |at| && at[i] == k
  {
    i :| i < |at| && at[i] == k;
  }

  /** Every planned shard count can be written in a label. */
  predicate Labelled(plan: Plan) {
    forall k :: 0 <= k < |plan| ==> plan[k].0.n <= 999
  }

  lemma PlannedShard(docs: seq<Doc>, k: nat)
    requires k < |PlanOf(docs)|
    ensures var s := PlanOf(docs)[k].0; s.profile in PROFILES && 1 <= s.k <= s.n
  {
    hide PlanOf, SortedDocs, PagesOf, Stride, CeilDiv;
    PlanHolds(docs, PlanOf(docs)[k]);
  }

  lemma FitRun(docs: seq<Doc>, files: seq<File>, at: seq<nat>, worlds: seq<World>, i: nat)
    requires DistinctPaths(docs) && RunsOfAll(docs, files, at, worlds) && i < |files|
    ensures var plan := PlanOf(docs);
            && (Fit(plan, files[i]) <==> plan[at[i]].0.n <= 999 && !files[i].stopped)
            && (Fit(plan, files[i]) ==> ShardOf(plan, files[i]) == plan[at[i]].0)
  {
    hide PlanOf, ParseShard, Label, Records, StartedCount;
    PlannedShard(docs, at[i]);
    ParseLabel(PlanOf(docs)[at[i]].0);
  }

  lemma AllFitRuns(docs: seq<Doc>, files: seq<File>, at: seq<nat>, worlds: seq<World>)
    requires DistinctPaths(docs) && RunsOfAll(docs, files, at, worlds) && Labelled(PlanOf(docs))
    requires forall i :: 0 <= i < |files| ==> !files[i].stopped
    ensures AllFit(PlanOf(docs), files) && PlanReported(PlanOf(docs), files)
  {
    hide PlanOf, Fit, ShardOf, IsRunOf;
    var plan := PlanOf(docs);
    forall i | 0 <= i < |files|
      ensures Fit(plan, files[i]) && ShardOf(plan, files[i]) == plan[at[i]].0
    {
      FitRun(docs, files, at, worlds, i);
    }
    forall i, j | 0 <= i < j < |files|
      ensures ShardOf(plan, files[i]) != ShardOf(plan, files[j])
    {
      EntriesApart(docs, if at[i] < at[j] then at[i] else at[j], if at[i] < at[j] then at[j] else at[i]);
    }
    forall k | 0 <= k < |plan|
      ensures Reports(plan, files, plan[k].0)
    {
      var i := PlaceOf(at, k);
      assert Fit(plan, files[i]) && ShardOf(plan, files[i]) == plan[k].0;
    }
  }

  /** Which pages the reports hold: those of their shards. */
  lemma HoldsRun(docs: seq<Doc>, files: seq<File>, at: seq<nat>, worlds: seq<World>, i: nat, page: string)
    requires DistinctPaths(docs) && RunsOfAll(docs, files, at, worlds)
    ensures Holds(files, i, page) <==> i < |files| && page in PlanOf(docs)[at[i]].1
    ensures (Holds(files, i, page) ==> files[i].pages[page].passed) <==> RightAt(files, ExpectedPages(docs), i, page)
  {
    hide PlanOf, Records, StartedCount, ExpectedPages, Label;
    ExpectedAre(docs);
    if i < |files| {
      RunHolds(docs, at[i], files[i], worlds[i]);
    }
  }

  lemma PagesRanOnce(docs: seq<Doc>, files: seq<File>, at: seq<nat>, worlds: seq<World>, page: string)
    requires DistinctPaths(docs) && RunsOfAll(docs, files, at, worlds)
    ensures HeldOnce(files, page)
    ensures page in ExpectedPages(docs) ==> Held(files, page)
  {
    hide PlanOf, IsRunOf, Holds, RightAt, ExpectedPages, Runs, Bag, RunBag, RunningList;
    var plan := PlanOf(docs);
    forall i: nat
      ensures Holds(files, i, page) <==> i < |files| && page in plan[at[i]].1
    {
      HoldsRun(docs, files, at, worlds, i, page);
    }
    forall i: nat, j: nat | i < j && Holds(files, i, page)
      ensures !Holds(files, j, page)
    {
      if j < |files| {
        EntriesApart(docs, if at[i] < at[j] then at[i] else at[j], if at[i] < at[j] then at[j] else at[i]);
      }
    }
    if page in ExpectedPages(docs) {
      ExpectedRuns(docs, page);
      var k := InSomeHand(docs, page);
      var i := PlaceOf(at, k);
      assert Holds(files, i, page);
    }
  }

  /** A page that runs was dealt to some shard. */
  lemma InSomeHand(docs: seq<Doc>, page: string) returns (k: nat)
    requires DistinctPaths(docs) && exists d :: d in docs && Runs(d) && d.path == page
    ensures k < |PlanOf(docs)| && page in PlanOf(docs)[k].1
  {
    hide PlanOf, Runs, Bag, RunBag;
    RunBagAtMostOnce(docs, page);
    PlanIsComplete(docs);
    InBag(PlanOf(docs), page);
    k :| 0 <= k < |PlanOf(docs)| && page in PlanOf(docs)[k].1;
  }

  lemma {:induction false} ExpectedRuns(docs: seq<Doc>, page: string)
    requires page in ExpectedPages(docs)
    ensures exists d :: d in docs && Runs(d) && d.path == page
  {
    hide Runs;
    var n := |docs| - 1;
    assert docs == docs[..n] + [docs[n]];
    if !(Runs(docs[n]) && docs[n].path == page) {
      ExpectedRuns(docs[..n], page);
    }
  }

  /** The whole pipeline: the reports of all shards, whatever happened in their runs and in
      any order, are accepted exactly when every shard count fits in a label and every run was
      in time with all its pages passing. */
  lemma PipelineIsAccepted(e: Enrolment, files: seq<File>, at: seq<nat>, worlds: seq<World>)
    requires Loaded(e) && PlanOf(e.documents) != [] && RunsOfAll(e.documents, files, at, worlds)
    ensures SummaryOf(e, files) == Accepted <==> Labelled(PlanOf(e.documents)) && AllRunsPass(e.documents, at, worlds)
  {
    hide PlanOf, SummaryOf, Fit, IsRunOf, Right, ShardOf, SumExec, ExpectedPages, Held, HeldOnce, RightAt, Passes;
    hide Holds;
    var docs := e.documents;
    var plan := PlanOf(docs);
    SummaryIsExact(e, files);
    assert 0 in at;
    forall i: nat | i < |files|
      ensures files[i].Report?
      ensures Passes(docs, plan[at[i]].0, worlds[i])
              <==> !files[i].stopped && AllRight(files, ExpectedPages(docs), i)
      ensures Fit(plan, files[i]) <==> plan[at[i]].0.n <= 999 && !files[i].stopped
    {
      RunIsReport(docs, files[i], plan[at[i]].0, worlds[i]);
      FitRun(docs, files, at, worlds, i);
      PassesIsRight(docs, files, at, worlds, i);
    }
    if Labelled(plan) && AllRunsPass(docs, at, worlds) {
      AllFitRuns(docs, files, at, worlds);
      forall i: nat, p
        ensures RightAt(files, ExpectedPages(docs), i, p)
      {
        HoldsRun(docs, files, at, worlds, i, p);
        BeyondIsRight(files, ExpectedPages(docs), i, p);
      }
      forall p
        ensures HeldOnce(files, p) && (p in ExpectedPages(docs) ==> Held(files, p))
      {
        PagesRanOnce(docs, files, at, worlds, p);
      }
    }
    if SummaryOf(e, files) == Accepted {
      forall k | 0 <= k < |plan|
        ensures plan[k].0.n <= 999
      {
        var i := PlaceOf(at, k);
        assert Fit(plan, files[i]);
      }
      forall i: nat | i < |at|
        ensures Passes(docs, plan[at[i]].0, worlds[i])
      {
        assert Fit(plan, files[i]);
      }
    }
  }

  lemma RunIsReport(docs: seq<Doc>, f: File, shard: Shard, world: World)
    requires IsRunOf(docs, f, shard, world)
    ensures f.Report?
  {
  }

  lemma BeyondIsRight(files: seq<File>, expected: map<string, nat>, i: nat, p: string)
    ensures i >= |files| ==> RightAt(files, expected, i, p)
  {
  }

  /** Every page in report `i` has the result the enrolment asks for. */
  ghost predicate AllRight(files: seq<File>, expected: map<string, nat>, i: nat) {
    forall p :: RightAt(files, expected, i, p)
  }

  /** The run of report `i` passed exactly when the report says so. */
  lemma PassesIsRight(docs: seq<Doc>, files: seq<File>, at: seq<nat>, worlds: seq<World>, i: nat)
    requires DistinctPaths(docs) && RunsOfAll(docs, files, at, worlds) && i < |files|
    ensures Passes(docs, PlanOf(docs)[at[i]].0, worlds[i])
            <==> !files[i].stopped && AllRight(files, ExpectedPages(docs), i)
  {
    hide PlanOf, ExpectedPages, Passes, AllRight, Label, Records, StartedCount, Chosen;
    PassesIs(docs, files[i], PlanOf(docs)[at[i]].0, worlds[i]);
    if forall p :: p in files[i].pages ==> files[i].pages[p].passed {
      RightIfPassed(docs, files, at, worlds, i);
    }
    if AllRight(files, ExpectedPages(docs), i) {
      PassedIfRight(docs, files, at, worlds, i);
    }
  }

  lemma RightIfPassed(docs: seq<Doc>, files: seq<File>, at: seq<nat>, worlds: seq<World>, i: nat)
    requires DistinctPaths(docs) && RunsOfAll(docs, files, at, worlds) && i < |files| && files[i].Report?
    requires forall p :: p in files[i].pages ==> files[i].pages[p].passed
    ensures AllRight(files, ExpectedPages(docs), i)
  {
    hide PlanOf, ExpectedPages, RightAt, Label, Records, StartedCount, Chosen;
    forall p
      ensures RightAt(files, ExpectedPages(docs), i, p)
    {
      HoldsRun(docs, files, at, worlds, i, p);
    }
  }

  lemma PassedIfRight(docs: seq<Doc>, files: seq<File>, at: seq<nat>, worlds: seq<World>, i: nat)
    requires DistinctPaths(docs) && RunsOfAll(docs, files, at, worlds) && i < |files| && files[i].Report?
    requires AllRight(files, ExpectedPages(docs), i)
    ensures forall p :: p in files[i].pages ==> files[i].pages[p].passed
  {
    hide PlanOf, ExpectedPages, RightAt, Label, Records, StartedCount, Chosen;
    forall p | p in files[i].pages
      ensures files[i].pages[p].passed
    {
      HoldsRun(docs, files, at, worlds, i, p);
      assert RightAt(files, ExpectedPages(docs), i, p);
    }
  }

  // --- Whose pages ---

  /** Two reports with each other's pages. */
  function Exchanged(files: seq<File>, i: nat, j: nat): seq<File>
    requires i < |files| && j < |files| && files[i].Report? && files[j].Report?
  {
    files[i := files[i].(pages := files[j].pages)][j := files[j].(pages := files[i].pages)]
  }

  function Other(i: nat, j: nat, k: nat): nat {
    if k == i then j else if k == j then i else k
  }

  lemma ExchangedHolds(files: seq<File>, i: nat, j: nat, k: nat, page: string)
    requires i < |files| && j < |files| && files[i].Report? && files[j].Report?
    ensures Holds(Exchanged(files, i, j), k, page) <==> Holds(files, Other(i, j, k), page)
    ensures Holds(Exchanged(files, i, j), k, page) ==>
              Exchanged(files, i, j)[k].pages[page] == files[Other(i, j, k)].pages[page]
  {
  }

  lemma ExchangedFit(plan: Plan, files: seq<File>, i: nat, j: nat)
    requires i < |files| && j < |files| && AllFit(plan, files)
    ensures files[i].Report? && files[j].Report? && AllFit(plan, Exchanged(files, i, j))
    ensures PlanReported(plan, files) ==> PlanReported(plan, Exchanged(files, i, j))
  {
    hide ParseShard, InPlan;
    assert Fit(plan, files[i]) && Fit(plan, files[j]);
    var now := Exchanged(files, i, j);
    forall k | 0 <= k < |files|
      ensures Fit(plan, now[k]) && ShardOf(plan, now[k]) == ShardOf(plan, files[k])
    {
      assert Fit(plan, files[k]);
    }
    if PlanReported(plan, files) {
      forall k | 0 <= k < |plan| ensures Reports(plan, now, plan[k].0) {
        assert Reports(plan, files, plan[k].0);
        var m :| 0 <= m < |files| && Fit(plan, files[m]) && ShardOf(plan, files[m]) == plan[k].0;
        assert Fit(plan, now[m]) && ShardOf(plan, now[m]) == plan[k].0;
      }
    }
  }

  /** The summary does not ask whose pages a report holds: with any two accepted reports'
      pages exchanged they are accepted still. */
  lemma ExchangeIsAccepted(e: Enrolment, files: seq<File>, i: nat, j: nat)
    requires Loaded(e) && SummaryOf(e, files) == Accepted && i < |files| && j < |files|
    ensures files[i].Report? && files[j].Report? && SummaryOf(e, Exchanged(files, i, j)) == Accepted
  {
    hide SummaryOf, PlanOf, AllFit, PlanReported, Exchanged, Holds, ExpectedPages, Right;
    SummaryIsExact(e, files);
    ExchangedFit(PlanOf(e.documents), files, i, j);
    var now := Exchanged(files, i, j);
    SummaryIsExact(e, now);
    assert |now| == |files| by { ExchangedLength(files, i, j); }
    forall k: nat, p
      ensures Holds(now, k, p) <==> Holds(files, Other(i, j, k), p)
      ensures RightAt(now, ExpectedPages(e.documents), k, p)
    {
      ExchangedHolds(files, i, j, k, p);
      assert RightAt(files, ExpectedPages(e.documents), Other(i, j, k), p);
      ExchangedRight(files, ExpectedPages(e.documents), i, j, k, p);
    }
    forall p
      ensures HeldOnce(now, p) && (Held(files, p) ==> Held(now, p))
    {
      assert HeldOnce(files, p);
      ExchangedOnce(files, i, j, p);
    }
  }

  lemma ExchangedLength(files: seq<File>, i: nat, j: nat)
    requires i < |files| && j < |files| && files[i].Report? && files[j].Report?
    ensures |Exchanged(files, i, j)| == |files|
  {
  }

  lemma ExchangedRight(files: seq<File>, expected: map<string, nat>, i: nat, j: nat, k: nat, p: string)
    requires i < |files| && j < |files| && files[i].Report? && files[j].Report?
    requires RightAt(files, expected, Other(i, j, k), p)
    ensures RightAt(Exchanged(files, i, j), expected, k, p)
  {
    hide Right;
    ExchangedHolds(files, i, j, k, p);
  }

  lemma ExchangedOnce(files: seq<File>, i: nat, j: nat, p: string)
    requires i < |files| && j < |files| && files[i].Report? && files[j].Report? && HeldOnce(files, p)
    ensures HeldOnce(Exchanged(files, i, j), p)
    ensures Held(files, p) ==> Held(Exchanged(files, i, j), p)
  {
    hide Holds, Exchanged;
    var now := Exchanged(files, i, j);
    forall k: nat
      ensures Holds(now, k, p) <==> Holds(files, Other(i, j, k), p)
    {
      ExchangedHolds(files, i, j, k, p);
    }
    if Held(files, p) {
      var k :| Holds(files, k, p);
      assert Other(i, j, Other(i, j, k)) == k;
      assert Holds(now, Other(i, j, k), p);
    }
  }

  /** The plan dealt the page to the shard. */
  predicate InHand(plan: Plan, shard: Shard, page: string) {
    exists k :: 0 <= k < |plan| && plan[k].0 == shard && page in plan[k].1
  }

  /** Report `i`'s pages lie inside its own shard's hand. */
  ghost predicate KeepsToItsHand(plan: Plan, files: seq<File>, i: nat) {
    forall p :: Holds(files, i, p) ==> i < |files| && Fit(plan, files[i]) && InHand(plan, ShardOf(plan, files[i]), p)
  }

  /** Report `i`'s pages are its own shard's hand. */
  ghost predicate IsItsHand(plan: Plan, files: seq<File>, i: nat)
    requires i < |files| && Fit(plan, files[i])
  {
    forall p :: Holds(files, i, p) <==> InHand(plan, ShardOf(plan, files[i]), p)
  }

  /** Every page ran in the shard it was dealt to, and nowhere else, exactly when no accepted
      report holds a page outside its own hand. */
  lemma RanAsDealt(e: Enrolment, files: seq<File>)
    requires Loaded(e) && SummaryOf(e, files) == Accepted
    ensures var plan := PlanOf(e.documents);
            && AllFit(plan, files)
            && ((forall i: nat :: KeepsToItsHand(plan, files, i))
                <==> forall i: nat :: i < |files| ==> IsItsHand(plan, files, i))
  {
    hide SummaryOf, PlanOf, Fit, ShardOf, Holds, ExpectedPages, Right, InHand;
    SummaryIsExact(e, files);
    var plan := PlanOf(e.documents);
    if forall i: nat :: KeepsToItsHand(plan, files, i) {
      forall i: nat | i < |files|
        ensures IsItsHand(plan, files, i)
      {
        assert KeepsToItsHand(plan, files, i);
        forall p | InHand(plan, ShardOf(plan, files[i]), p)
          ensures Holds(files, i, p)
        {
          HandIsHeld(e, files, i, p);
        }
      }
    }
    if forall i: nat :: i < |files| ==> IsItsHand(plan, files, i) {
      forall i: nat
        ensures KeepsToItsHand(plan, files, i)
      {
        HoldsOnlyFiles(files, i);
        assert i < |files| ==> IsItsHand(plan, files, i);
      }
    }
  }

  lemma HoldsOnlyFiles(files: seq<File>, i: nat)
    ensures forall p :: Holds(files, i, p) ==> i < |files|
  {
  }

  lemma HandIsHeld(e: Enrolment, files: seq<File>, i: nat, p: string)
    requires Loaded(e) && AllRanOnce(e, files) && i < |files|
    requires forall k: nat :: KeepsToItsHand(PlanOf(e.documents), files, k)
    requires InHand(PlanOf(e.documents), ShardOf(PlanOf(e.documents), files[i]), p)
    ensures Holds(files, i, p)
  {
    hide PlanOf, Fit, ShardOf, Holds, Right, ExpectedPages, Runs, PlanReported, HeldRight;
    var docs := e.documents;
    var plan := PlanOf(docs);
    var k :| 0 <= k < |plan| && plan[k].0 == ShardOf(plan, files[i]) && p in plan[k].1;
    ShardPagesRun(docs, plan[k], p);
    ExpectedAre(docs);
    assert Held(files, p);
    var j: nat :| Holds(files, j, p);
    HoldsInRange(files, j, p);
    assert KeepsToItsHand(plan, files, j);
    var m :| 0 <= m < |plan| && plan[m].0 == ShardOf(plan, files[j]) && p in plan[m].1;
    if m != k {
      EntriesApart(docs, if m < k then m else k, if m < k then k else m);
    }
    assert ShardOf(plan, files[i]) == ShardOf(plan, files[j]);
  }
}
