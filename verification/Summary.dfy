/** How `doc_examples.py` reads the shards' reports, judges and adds them up. */
module Summary {
  import opened Ordering
  import opened Sequences
  import opened Shards
  import opened Runner

  /** A report file: not readable, not a report, or a report with its label, its pages and
      whether the runner stopped. */
  datatype File = Unreadable | Malformed | Report(shard: string, pages: map<string, PageResult>, stopped: bool)

  datatype Problem =
    | NotReadable(file: nat)
    | NotAReport(file: nat)
    | BadLabel(file: nat)
    | NotPlanned(file: nat, shard: Shard)
    | ReportedTwice(shard: Shard)
    | Stopped(shard: Shard)
    | NoReport(shard: Shard)
    | NotAPage(page: string)
    | RanTimes(page: string, times: nat)
    | InNoReport(page: string)
    | WrongExec(page: string)
    | WrongReached(page: string)
    | PageFailed(page: string)
    | WrongTotal(reached: nat)

  // --- Reading the reports ---

  /** What the reports read so far say: the shards seen, where each page ran and with what
      result, and the problems. */
  datatype Tally = Tally(seen: set<Shard>, where: map<string, seq<Shard>>, results: map<string, PageResult>,
                         problems: seq<Problem>)

  const NOTHING := Tally({}, map[], map[], [])

  function AddTo(where: map<string, seq<Shard>>, pages: set<string>, shard: Shard): map<string, seq<Shard>> {
    map p | p in where.Keys + pages :: (if p in where then where[p] else []) + (if p in pages then [shard] else [])
  }

  function Refuse(t: Tally, problem: Problem): Tally {
    t.(problems := t.problems + [problem])
  }

  function Accept(t: Tally, shard: Shard, f: File): Tally
    requires f.Report?
  {
    Tally(t.seen + {shard}, AddTo(t.where, f.pages.Keys, shard), t.results + f.pages,
          t.problems + Only(Stopped(shard), f.stopped))
  }

  function Read(plan: Plan, t: Tally, i: nat, f: File): Tally {
    match f
    case Unreadable => Refuse(t, NotReadable(i))
    case Malformed => Refuse(t, NotAReport(i))
    case Report(text, _, _) =>
      match ParseShard(text)
      case None => Refuse(t, BadLabel(i))
      case Some(shard) =>
        if !InPlan(plan, shard) then Refuse(t, NotPlanned(i, shard))
        else if shard in t.seen then Refuse(t, ReportedTwice(shard))
        else Accept(t, shard, f)
  }

  function ReadAll(plan: Plan, files: seq<File>): Tally {
    if files == [] then NOTHING
    else Read(plan, ReadAll(plan, files[..|files| - 1]), |files| - 1, files[|files| - 1])
  }

  // --- Judging them ---

  function Unseen(plan: Plan, seen: set<Shard>): seq<Problem> {
    if plan == [] then []
    else Unseen(plan[..|plan| - 1], seen) + Only(NoReport(plan[|plan| - 1].0), plan[|plan| - 1].0 !in seen)
  }

  /** The pages of the shards that sent no report. */
  function Unreported(plan: Plan, seen: set<Shard>): set<string> {
    if plan == [] then {}
    else Unreported(plan[..|plan| - 1], seen) +
         (if plan[|plan| - 1].0 in seen then {} else ToSet(plan[|plan| - 1].1))
  }

  function PageProblems(page: string, expected: map<string, nat>, where: map<string, seq<Shard>>): seq<Problem>
    requires page in where
  {
    if page !in expected then [NotAPage(page)]
    else Only(RanTimes(page, |where[page]|), |where[page]| > 1)
  }

  function PagesProblems(pages: seq<string>, expected: map<string, nat>, where: map<string, seq<Shard>>): seq<Problem>
    requires forall p :: p in pages ==> p in where
  {
    if pages == [] then []
    else
      assert pages == pages[..|pages| - 1] + [pages[|pages| - 1]];
      PagesProblems(pages[..|pages| - 1], expected, where) + PageProblems(pages[|pages| - 1], expected, where)
  }

  function ResultProblems(page: string, exec: nat, r: PageResult): seq<Problem> {
    Only(WrongExec(page), r.exec != exec) +
    (if r.reached != exec then [WrongReached(page)] else Only(PageFailed(page), !r.passed))
  }

  function ExpectedProblems(page: string, exec: nat, t: Tally, unreported: set<string>): seq<Problem>
    requires t.where.Keys == t.results.Keys
  {
    if page !in t.where then Only(InNoReport(page), page !in unreported)
    else ResultProblems(page, exec, t.results[page])
  }

  function AllExpectedProblems(pages: seq<string>, expected: map<string, nat>, t: Tally,
                               unreported: set<string>): seq<Problem>
    requires t.where.Keys == t.results.Keys && forall p :: p in pages ==> p in expected
  {
    if pages == [] then []
    else
      assert pages == pages[..|pages| - 1] + [pages[|pages| - 1]];
      AllExpectedProblems(pages[..|pages| - 1], expected, t, unreported) +
      ExpectedProblems(pages[|pages| - 1], expected[pages[|pages| - 1]], t, unreported)
  }

  /** The exec blocks that reached their end on the expected ones of some pages. */
  function Reached(pages: seq<string>, expected: map<string, nat>, results: map<string, PageResult>): nat
    requires forall p :: p in pages ==> p in results
  {
    if pages == [] then 0
    else
      assert pages == pages[..|pages| - 1] + [pages[|pages| - 1]];
      var last := pages[|pages| - 1];
      Reached(pages[..|pages| - 1], expected, results) + if last in expected then results[last].reached else 0
  }

  /** The pages that run, with their exec counts. */
  function ExpectedPages(docs: seq<Doc>): map<string, nat> {
    if docs == [] then map[]
    else
      var rest, last := ExpectedPages(docs[..|docs| - 1]), docs[|docs| - 1];
      if Runs(last) then rest[last.path := last.exec] else rest
  }

  lemma {:induction false} SameKeys(plan: Plan, files: seq<File>)
    ensures ReadAll(plan, files).where.Keys == ReadAll(plan, files).results.Keys
  {
    hide InPlan;
    if files != [] {
      SameKeys(plan, files[..|files| - 1]);
    }
  }

  function JudgeProblems(e: Enrolment, t: Tally): seq<Problem>
    requires t.where.Keys == t.results.Keys
  {
    var plan, expected := PlanOf(e.documents), ExpectedPages(e.documents);
    var reached := Reached(Sorted(t.results.Keys), expected, t.results);
    t.problems + Unseen(plan, t.seen) +
    PagesProblems(Sorted(t.where.Keys), expected, t.where) +
    AllExpectedProblems(Sorted(expected.Keys), expected, t, Unreported(plan, t.seen)) +
    Only(WrongTotal(reached), reached != e.execTotal)
  }

  /** What the summary raises: nothing to read, or these problems; none means it accepts. */
  datatype Raised = NoReports | Failed(problems: seq<Problem>) | Accepted

  function SummaryOf(e: Enrolment, files: seq<File>): Raised {
    if files == [] then NoReports
    else
      SameKeys(PlanOf(e.documents), files);
      var problems := JudgeProblems(e, ReadAll(PlanOf(e.documents), files));
      if problems == [] then Accepted else Failed(problems)
  }

  // --- The loops ---

  method ReadReports(plan: Plan, files: seq<File>) returns (t: Tally)
    ensures t == ReadAll(plan, files) && t.where.Keys == t.results.Keys
  {
    hide ParseShard, InPlan, Accept, Refuse;
    t := NOTHING;
    for i := 0 to |files|
      invariant t == ReadAll(plan, files[..i])
    {
      assert files[..i + 1][..i] == files[..i];
      if files[i].Unreadable? {
        t := Refuse(t, NotReadable(i));
        continue;
      }
      if files[i].Malformed? {
        t := Refuse(t, NotAReport(i));
        continue;
      }
      var parsed := ParseShard(files[i].shard);
      if parsed.None? {
        t := Refuse(t, BadLabel(i));
        continue;
      }
      var shard := parsed.value;
      if !InPlan(plan, shard) {
        t := Refuse(t, NotPlanned(i, shard));
        continue;
      }
      if shard in t.seen {
        t := Refuse(t, ReportedTwice(shard));
        continue;
      }
      t := Accept(t, shard, files[i]);
    }
    assert files[..|files|] == files;
    SameKeys(plan, files);
  }

  method FindUnseen(plan: Plan, seen: set<Shard>) returns (problems: seq<Problem>, unreported: set<string>)
    ensures problems == Unseen(plan, seen) && unreported == Unreported(plan, seen)
  {
    problems, unreported := [], {};
    for k := 0 to |plan|
      invariant problems == Unseen(plan[..k], seen) && unreported == Unreported(plan[..k], seen)
    {
      assert plan[..k + 1][..k] == plan[..k];
      if plan[k].0 !in seen {
        unreported := unreported + ToSet(plan[k].1);
        problems := problems + [NoReport(plan[k].0)];
      }
    }
    assert plan[..|plan|] == plan;
  }

  method JudgePages(expected: map<string, nat>, where: map<string, seq<Shard>>) returns (problems: seq<Problem>)
    ensures problems == PagesProblems(Sorted(where.Keys), expected, where)
  {
    hide Sorted;
    var pages := Sorted(where.Keys);
    problems := [];
    for k := 0 to |pages|
      invariant problems == PagesProblems(pages[..k], expected, where)
    {
      assert pages[..k + 1][..k] == pages[..k];
      var page := pages[k];
      if page !in expected {
        problems := problems + [NotAPage(page)];
      } else if |where[page]| > 1 {
        problems := problems + [RanTimes(page, |where[page]|)];
      }
    }
    assert pages[..|pages|] == pages;
  }

  /** The tests of one page that runs. */
  method JudgeOne(page: string, exec: nat, t: Tally, unreported: set<string>) returns (problems: seq<Problem>)
    requires t.where.Keys == t.results.Keys
    ensures problems == ExpectedProblems(page, exec, t, unreported)
  {
    if page !in t.where {
      return if page !in unreported then [InNoReport(page)] else [];
    }
    var result := t.results[page];
    problems := [];
    if result.exec != exec {
      problems := problems + [WrongExec(page)];
    }
    if result.reached != exec {
      problems := problems + [WrongReached(page)];
    } else if !result.passed {
      problems := problems + [PageFailed(page)];
    }
  }

  method JudgeExpected(expected: map<string, nat>, t: Tally, unreported: set<string>) returns (problems: seq<Problem>)
    requires t.where.Keys == t.results.Keys
    ensures problems == AllExpectedProblems(Sorted(expected.Keys), expected, t, unreported)
  {
    hide Sorted, StrictlySorted, ExpectedProblems;
    var pages := Sorted(expected.Keys);
    problems := [];
    for k := 0 to |pages|
      invariant problems == AllExpectedProblems(pages[..k], expected, t, unreported)
    {
      assert pages[..k + 1][..k] == pages[..k];
      var found := JudgeOne(pages[k], expected[pages[k]], t, unreported);
      problems := problems + found;
    }
    assert pages[..|pages|] == pages;
  }

  method SumReached(expected: map<string, nat>, results: map<string, PageResult>) returns (reached: nat)
    ensures reached == Reached(Sorted(results.Keys), expected, results)
  {
    hide Sorted;
    var pages := Sorted(results.Keys);
    reached := 0;
    for k := 0 to |pages|
      invariant reached == Reached(pages[..k], expected, results)
    {
      assert pages[..k + 1][..k] == pages[..k];
      if pages[k] in expected {
        reached := reached + results[pages[k]].reached;
      }
    }
    assert pages[..|pages|] == pages;
  }

  method Summarise(e: Enrolment, files: seq<File>) returns (r: Raised)
    ensures r == SummaryOf(e, files)
  {
    hide PlanOf, ReadAll, ExpectedPages, Unseen, Unreported, PagesProblems, AllExpectedProblems, Reached, Sorted, Only;
    var expected := ExpectedPages(e.documents);
    var plan := ShardPlan(e.documents);
    if files == [] {
      return NoReports;
    }
    var t := ReadReports(plan, files);
    var problems := t.problems;
    var unseen, unreported := FindUnseen(plan, t.seen);
    problems := problems + unseen;
    var pages := JudgePages(expected, t.where);
    problems := problems + pages;
    var results := JudgeExpected(expected, t, unreported);
    problems := problems + results;
    var reached := SumReached(expected, t.results);
    problems := problems + Only(WrongTotal(reached), reached != e.execTotal);
    r := if problems == [] then Accepted else Failed(problems);
  }
}
