/** A shard's run in `doc_examples.py`: its pages in enrolment order, until the deadline. */
module Runner {
  import opened Wrappers
  import opened Shards

  /** What a shard's report says of a page. */
  datatype PageResult = PageResult(exec: nat, reached: nat, passed: bool, seconds: real)

  /** What running a page gave: whether it had a problem, the blocks that reached their end. */
  datatype Measured = Measured(failed: bool, reached: nat, seconds: real)

  /** What the run cannot decide: whether the deadline is reached before a page or after the
      last one, what a page does, whether a volume is gone afterwards, whether the tree has the
      modules the full profile needs, and whether the static check passes. */
  datatype World = World(late: string -> bool, page: string -> Measured, lateAtEnd: bool, lostVolumes: bool,
                         modules: bool, checked: bool)

  /** Why a run stopped: the deadline came before a page, or only after the last one. */
  datatype Stop = BeforePage | AfterPages

  datatype Outcome = Outcome(results: map<string, PageResult>, stopped: Option<Stop>, failed: bool,
                             started: seq<string>)

  datatype Refusal = NotChecked | NotEnrolled | NotInPlan | NoModules

  function Selected(docs: seq<Doc>, selected: set<string>): seq<Doc> {
    if docs == [] then []
    else Selected(docs[..|docs| - 1], selected) +
         (if docs[|docs| - 1].path in selected then [docs[|docs| - 1]] else [])
  }

  function Paths(docs: seq<Doc>): (r: seq<string>)
    ensures |r| == |docs|
  {
    seq(|docs|, k requires 0 <= k < |docs| => docs[k].path)
  }

  /** How many of the pages start: those above the first one the deadline comes before. */
  function StartedCount(docs: seq<Doc>, world: World): (n: nat)
    ensures n <= |docs|
    ensures forall k :: 0 <= k < n ==> !world.late(docs[k].path)
    ensures n < |docs| ==> world.late(docs[n].path)
  {
    if docs == [] || world.late(docs[0].path) then 0 else 1 + StartedCount(docs[1..], world)
  }

  /** A page that ran: it passes when it has no problem and reached what the enrolment says. */
  function Verdict(doc: Doc, m: Measured): PageResult {
    PageResult(doc.exec, m.reached, !m.failed && m.reached == doc.exec, m.seconds)
  }

  function NotRun(doc: Doc): PageResult {
    PageResult(doc.exec, 0, false, 0.0)
  }

  /** What the run must record of the `k`-th selected page. */
  function Expected(docs: seq<Doc>, world: World, k: nat): PageResult
    requires k < |docs|
  {
    if k < StartedCount(docs, world) then Verdict(docs[k], world.page(docs[k].path)) else NotRun(docs[k])
  }

  predicate Records(results: map<string, PageResult>, docs: seq<Doc>, world: World, n: nat)
    requires n <= |docs|
  {
    && results.Keys == (set k | 0 <= k < n :: docs[k].path)
    && forall k :: 0 <= k < n ==> results[docs[k].path] == Expected(docs, world, k)
  }

  lemma {:induction false} SelectedAre(docs: seq<Doc>, selected: set<string>)
    requires DistinctPaths(docs)
    ensures DistinctPaths(Selected(docs, selected))
    ensures forall d :: d in Selected(docs, selected) <==> d in docs && d.path in selected
  {
    if docs != [] {
      var n := |docs| - 1;
      SelectedAre(docs[..n], selected);
      assert docs == docs[..n] + [docs[n]];
      var before := Selected(docs[..n], selected);
      forall k | 0 <= k < |before|
        ensures before[k].path != docs[n].path
      {
        assert before[k] in docs[..n];
      }
    }
  }

  /** What a run of these pages leaves: a result for each, the pages started, how the run
      stopped, and whether it fails. */
  ghost predicate IsOutcome(o: Outcome, chosen: seq<Doc>, world: World) {
    var n := StartedCount(chosen, world);
    && Records(o.results, chosen, world, |chosen|)
    && o.started == Paths(chosen)[..n]
    && o.stopped == (if n < |chosen| then Some(BeforePage) else if world.lateAtEnd then Some(AfterPages) else None)
    && (o.failed <==> world.lostVolumes || exists k :: 0 <= k < |chosen| && !Expected(chosen, world, k).passed)
  }

  /** The pages are run in enrolment order. Every selected page gets exactly one result; the
      pages that start are the first ones, up to where the deadline comes; the rest are
      recorded as not run. */
  method RunPages(docs: seq<Doc>, selected: set<string>, world: World) returns (o: Outcome)
    requires DistinctPaths(docs)
    ensures IsOutcome(o, Selected(docs, selected), world)
  {
    hide StartedCount, Expected, Records, Selected, Verdict, NotRun;
    var results: map<string, PageResult> := map[];
    var stopped: Option<Stop> := None;
    var failed := false;
    var started: seq<string> := [];
    ghost var chosen := Selected(docs, selected);
    ghost var done := 0;
    SelectedAre(docs, selected);
    assert docs[..0] == [] && docs[..|docs|] == docs;
    assert Selected(docs[..0], selected) == [] && Records(results, chosen, world, 0) by {
      NothingYet(docs, selected, world);
    }
    for i := 0 to |docs|
      invariant done <= |chosen| && chosen[..done] == Selected(docs[..i], selected)
      invariant Records(results, chosen, world, done)
      invariant stopped == if StartedCount(chosen, world) < done then Some(BeforePage) else None
      invariant started == Paths(chosen)[..if stopped.None? then done else StartedCount(chosen, world)]
      invariant failed <==> exists k :: 0 <= k < done && !Expected(chosen, world, k).passed
    {
      var doc := docs[i];
      SelectedStep(docs, selected, i);
      if doc.path !in selected {
        continue;
      }
      assert chosen[done] == doc;
      Stops(chosen, world, done);
      if stopped.None? && world.late(doc.path) {
        stopped := Some(BeforePage);
      }
      var result;
      if stopped.Some? {
        result := NotRun(doc);
      } else {
        result := Verdict(doc, world.page(doc.path));
        started := started + [doc.path];
      }
      RecordsOneMore(results, chosen, world, done);
      results := results[doc.path := result];
      failed := failed || !result.passed;
      done := done + 1;
    }
    if stopped.None? && world.lateAtEnd {
      stopped := Some(AfterPages);
    }
    failed := failed || world.lostVolumes;
    o := Outcome(results, stopped, failed, started);
  }

  lemma SelectedStep(docs: seq<Doc>, selected: set<string>, i: nat)
    requires i < |docs|
    ensures var before, all := Selected(docs[..i], selected), Selected(docs, selected);
            var after := before + if docs[i].path in selected then [docs[i]] else [];
            && Selected(docs[..i + 1], selected) == after
            && |after| <= |all| && all[..|after|] == after
  {
    assert docs[..i + 1][..i] == docs[..i];
    SelectedPrefix(docs, selected, i + 1);
  }

  lemma {:induction false} SelectedPrefix(docs: seq<Doc>, selected: set<string>, n: nat)
    requires n <= |docs|
    ensures Selected(docs[..n], selected) <= Selected(docs, selected)
  {
    if n == |docs| {
      assert docs[..n] == docs;
    } else {
      var m := |docs| - 1;
      SelectedPrefix(docs[..m], selected, n);
      assert docs[..m][..n] == docs[..n];
    }
  }

  lemma NothingYet(docs: seq<Doc>, selected: set<string>, world: World)
    ensures Selected(docs[..0], selected) == []
    ensures Records(map[], Selected(docs, selected), world, 0)
  {
  }

  /** One page's result in terms of those above it. */
  lemma Stops(docs: seq<Doc>, world: World, k: nat)
    requires k < |docs|
    ensures var n := StartedCount(docs, world);
            && (n <= k <==> n < k || world.late(docs[k].path))
            && Expected(docs, world, k) ==
               if n < k || world.late(docs[k].path) then NotRun(docs[k])
               else Verdict(docs[k], world.page(docs[k].path))
  {
  }

  /** From the first page the deadline comes before, no page starts, late or not. */
  lemma {:induction false} NoneStartsLater(docs: seq<Doc>, world: World, k: nat, j: nat)
    requires k <= j < |docs| && world.late(docs[k].path)
    ensures StartedCount(docs, world) <= k && Expected(docs, world, j) == NotRun(docs[j])
  {
    if k > 0 && !world.late(docs[0].path) {
      assert docs[1..][k - 1] == docs[k] && docs[1..][j - 1] == docs[j];
      NoneStartsLater(docs[1..], world, k - 1, j - 1);
    }
  }

  /** What the report says of each page: of one that ran, what it measured, and a pass when it had
      no problem and reached what the enrolment says; of one at or below a late page, nothing
      reached and no pass. */
  lemma ResultsAre(o: Outcome, chosen: seq<Doc>, world: World, k: nat)
    requires IsOutcome(o, chosen, world) && DistinctPaths(chosen) && k < |chosen|
    ensures var doc, m := chosen[k], world.page(chosen[k].path);
            var late := exists j: nat :: j <= k && world.late(chosen[j].path);
            && doc.path in o.results
            && o.results[doc.path] ==
               (if late then PageResult(doc.exec, 0, false, 0.0)
                else PageResult(doc.exec, m.reached, !m.failed && m.reached == doc.exec, m.seconds))
            && (doc.path in o.started <==> !late)
  {
    hide StartedCount, DistinctPaths;
    LateOrNot(chosen, world, k);
    StartedAre(chosen, StartedCount(chosen, world), k);
  }

  lemma LateOrNot(chosen: seq<Doc>, world: World, k: nat)
    requires k < |chosen|
    ensures k < StartedCount(chosen, world) <==> !exists j: nat :: j <= k && world.late(chosen[j].path)
  {
  }

  lemma StartedAre(chosen: seq<Doc>, n: nat, k: nat)
    requires DistinctPaths(chosen) && n <= |chosen| && k < |chosen|
    ensures chosen[k].path in Paths(chosen)[..n] <==> k < n
  {
    if k < n {
      assert Paths(chosen)[..n][k] == chosen[k].path;
    }
  }

  lemma RecordsOneMore(results: map<string, PageResult>, docs: seq<Doc>, world: World, n: nat)
    requires DistinctPaths(docs) && n < |docs| && Records(results, docs, world, n)
    ensures Records(results[docs[n].path := Expected(docs, world, n)], docs, world, n + 1)
  {
    hide Expected;
    var more := results[docs[n].path := Expected(docs, world, n)];
    assert more.Keys == (set k | 0 <= k < n :: docs[k].path) + {docs[n].path};
  }

  // --- Choosing the pages ---

  function RunningPaths(docs: seq<Doc>): set<string> {
    set d | d in docs && Runs(d) :: d.path
  }

  function PagesOfShard(docs: seq<Doc>, shard: Shard): (pages: set<string>) {
    set k, p | 0 <= k < |PlanOf(docs)| && PlanOf(docs)[k].0 == shard && p in PlanOf(docs)[k].1 :: p
  }

  /** A page is asked for; an empty path asks for none. */
  predicate Asks(only: Option<string>) {
    only.Some? && only.value != ""
  }

  /** The pages a shard, a page or all of them select. */
  function SelectedPaths(docs: seq<Doc>, shard: Option<Shard>, only: Option<string>): set<string> {
    RunningPaths(docs)
    * (if shard.Some? then PagesOfShard(docs, shard.value) else RunningPaths(docs))
    * (if Asks(only) then {only.value} else RunningPaths(docs))
  }

  /** A page is selected exactly when it runs, is in the shard's hand where one is given, and is the one
      asked for where one is. */
  lemma SelectedIs(docs: seq<Doc>, shard: Option<Shard>, only: Option<string>, page: string)
    ensures page in SelectedPaths(docs, shard, only) <==>
            && (exists d :: d in docs && d.path == page && d.exec > 0)
            && (shard.Some? ==> exists k :: 0 <= k < |PlanOf(docs)| && PlanOf(docs)[k].0 == shard.value
                                            && page in PlanOf(docs)[k].1)
            && (only.Some? && only.value != "" ==> page == only.value)
  {
    hide PlanOf;
  }

  /** A selected page needs the full profile. */
  predicate NeedsModules(docs: seq<Doc>, selected: set<string>) {
    exists d :: d in docs && d.path in selected && ProfileOf(d) == "full"
  }

  /** The run of one shard, or of all pages that run, or of one page of them. */
  method RunShard(e: Enrolment, shard: Option<Shard>, only: Option<string>, world: World)
    returns (r: Result<Outcome, Refusal>)
    requires Loaded(e)
    ensures r.Err? <==>
              || !world.checked
              || (Asks(only) && only.value !in Paths(e.documents))
              || (shard.Some? && !InPlan(PlanOf(e.documents), shard.value))
              || (NeedsModules(e.documents, SelectedPaths(e.documents, shard, only)) && !world.modules)
    ensures r.Err? ==> r.error == if !world.checked then NotChecked
                                  else if Asks(only) && only.value !in Paths(e.documents) then NotEnrolled
                                  else if shard.Some? && !InPlan(PlanOf(e.documents), shard.value) then NotInPlan
                                  else NoModules
    ensures r.Ok? ==>
              var selected := SelectedPaths(e.documents, shard, only);
              IsOutcome(r.value, Selected(e.documents, selected), world) && r.value.results.Keys == selected
  {
    hide PlanOf, Expected, StartedCount, Runs, ProfileOf;
    if !world.checked {
      return Err(NotChecked);
    }
    var docs := e.documents;
    if Asks(only) && only.value !in Paths(docs) {
      return Err(NotEnrolled);
    }
    var selected := RunningPaths(docs);
    if shard.Some? {
      if !InPlan(PlanOf(docs), shard.value) {
        return Err(NotInPlan);
      }
      selected := selected * PagesOfShard(docs, shard.value);
    }
    if Asks(only) {
      selected := selected * {only.value};
    }
    assert selected == SelectedPaths(docs, shard, only);
    if NeedsModules(docs, selected) && !world.modules {
      return Err(NoModules);
    }
    var o := RunPages(docs, selected, world);
    KeysAreSelected(docs, selected);
    r := Ok(o);
  }

  lemma KeysAreSelected(docs: seq<Doc>, selected: set<string>)
    requires DistinctPaths(docs) && selected <= RunningPaths(docs)
    ensures var chosen := Selected(docs, selected);
            (set k | 0 <= k < |chosen| :: chosen[k].path) == selected
  {
    var chosen := Selected(docs, selected);
    SelectedAre(docs, selected);
    forall p | p in selected
      ensures p in (set k | 0 <= k < |chosen| :: chosen[k].path)
    {
      var d :| d in docs && Runs(d) && d.path == p;
      assert d in chosen;
    }
    forall k | 0 <= k < |chosen|
      ensures chosen[k].path in selected
    {
      assert chosen[k] in chosen;
    }
  }

  /** No page comes after the deadline, none has a problem, and each reaches its end. */
  ghost predicate AllPass(docs: seq<Doc>, world: World) {
    forall k :: 0 <= k < |docs| ==>
      !world.late(docs[k].path) && !world.page(docs[k].path).failed && world.page(docs[k].path).reached == docs[k].exec
  }

  /** The pages all started and all passed exactly when the world lets them. */
  lemma AllPassIs(docs: seq<Doc>, world: World)
    ensures AllPass(docs, world) <==>
              StartedCount(docs, world) == |docs| && forall k :: 0 <= k < |docs| ==> Expected(docs, world, k).passed
  {
    StartedAll(docs, world);
    assert forall k :: 0 <= k < |docs| && StartedCount(docs, world) == |docs| ==>
             (Expected(docs, world, k).passed
              <==> !world.page(docs[k].path).failed && world.page(docs[k].path).reached == docs[k].exec);
  }

  lemma {:induction false} StartedAll(docs: seq<Doc>, world: World)
    ensures StartedCount(docs, world) == |docs| <==> forall k :: 0 <= k < |docs| ==> !world.late(docs[k].path)
  {
    if docs != [] {
      StartedAll(docs[1..], world);
      assert forall k :: 0 < k < |docs| ==> docs[1..][k - 1] == docs[k];
    }
  }

  /** A run records that it stopped and does not fail exactly when the deadline comes only after
      its last page, all its pages pass, and no volume is lost. */
  lemma StoppedWithoutFailing(o: Outcome, chosen: seq<Doc>, world: World)
    requires IsOutcome(o, chosen, world)
    ensures o.stopped.Some? && !o.failed <==> world.lateAtEnd && AllPass(chosen, world) && !world.lostVolumes
    ensures o.stopped == Some(BeforePage) ==> o.failed
  {
    hide Records;
    AllPassIs(chosen, world);
    var n := StartedCount(chosen, world);
    if n < |chosen| {
      assert !Expected(chosen, world, n).passed;
    }
  }

  // --- The deadline ---

  const DEADLINE_MARGIN_SECONDS := 120
  const TEARDOWN_RESERVE_SECONDS := 60

  /** How long a teardown may take, with `remaining` seconds to the deadline. */
  function TeardownSeconds(remaining: real): int {
    var least := TEARDOWN_RESERVE_SECONDS as real;
    var most := remaining + DEADLINE_MARGIN_SECONDS as real / 2.0;
    var wanted := if most > least then most else least;
    (if wanted < 600.0 then wanted else 600.0).Floor
  }

  /** A teardown that begins by the deadline gets its reserve, ends a minute before the job's own
      timeout, and has all the whole seconds up to then, or ten minutes. */
  lemma TeardownFits(now: real, start: real, minutes: nat)
    requires var deadline := start + (minutes * 60 - DEADLINE_MARGIN_SECONDS) as real; now <= deadline
    ensures var deadline := start + (minutes * 60 - DEADLINE_MARGIN_SECONDS) as real;
            var seconds := TeardownSeconds(deadline - now);
            && TEARDOWN_RESERVE_SECONDS <= seconds <= 600
            && now + seconds as real <= start + (minutes * 60) as real - 60.0
            && (seconds < 600 ==> now + (seconds + 1) as real > start + (minutes * 60) as real - 60.0)
  {
  }
}
