/** One rolling issue per failing guide (`docs_journeys_report.py`). */
module RollingIssue {
  import opened Wrappers
  import opened Ordering
  import Text

  datatype Word = FAIL | PASS | PARTIAL

  datatype Verdict = Verdict(guide: string, word: Word, step: int, template: string)

  type Verdicts = map<string, Verdict>

  /** An issue of the workflow: the step its body names, and those its own comments name. */
  datatype Issue = Issue(guide: string, body: Option<int>, comments: seq<Option<int>>)

  datatype OpenIssue = OpenIssue(number: nat, step: Option<int>)

  datatype Item =
    | Open(guide: string, step: int)
    | Comment(guide: string, issue: nat, step: int)
    | Close(guide: string, issue: nat)
    | Nothing(guide: string)

  /** A streak of this many failures opens an issue. */
  const OPEN_AFTER := 2

  /** How many scheduled runs are listed: this one, and those before it. */
  const HISTORY_LIMIT := 10

  function TemplateOf(word: Word): string {
    match word
    case FAIL => "docs-guide-fail.tmpl"
    case PASS => "docs-guide-pass.tmpl"
    case PARTIAL => "docs-guide-partial.tmpl"
  }

  // --- One run's verdicts ---

  /** The journeys of the first `n` parts. */
  function Merged(parts: seq<Verdicts>, n: nat): Verdicts
    requires n <= |parts|
  {
    if n == 0 then map[] else Merged(parts, n - 1) + parts[n - 1]
  }

  /** No journey is in two of the first `n` parts. */
  predicate Apart(parts: seq<Verdicts>, n: nat)
    requires n <= |parts|
  {
    forall a, b :: 0 <= a < b < n ==> parts[a].Keys !! parts[b].Keys
  }

  lemma {:induction false} MergedFrom(parts: seq<Verdicts>, n: nat, journey: string) returns (k: nat)
    requires n <= |parts| && journey in Merged(parts, n)
    ensures k < n && journey in parts[k]
  {
    if journey in parts[n - 1] {
      k := n - 1;
    } else {
      k := MergedFrom(parts, n - 1, journey);
    }
  }

  lemma {:induction false} MergedHolds(parts: seq<Verdicts>, n: nat, k: nat, journey: string)
    requires k < n <= |parts| && journey in parts[k]
    ensures journey in Merged(parts, n)
    ensures Apart(parts, n) ==> Merged(parts, n)[journey] == parts[k][journey]
  {
    if k < n - 1 {
      MergedHolds(parts, n - 1, k, journey);
    }
  }

  lemma ApartNext(parts: seq<Verdicts>, n: nat)
    requires n < |parts| && Apart(parts, n) && Merged(parts, n).Keys !! parts[n].Keys
    ensures Apart(parts, n + 1)
  {
    hide Merged;
    forall a | 0 <= a < n
      ensures parts[a].Keys !! parts[n].Keys
    {
      forall j | j in parts[a] ensures j !in parts[n] {
        MergedHolds(parts, n, a, j);
      }
    }
  }

  /** The journeys of all parts together; refused, naming a journey, exactly when one is in two
      of them. */
  method MergeVerdicts(parts: seq<Verdicts>) returns (r: Result<Verdicts, string>)
    ensures r.Ok? <==> Apart(parts, |parts|)
    ensures r.Ok? ==> r.value == Merged(parts, |parts|)
    ensures r.Err? ==> exists a, b :: 0 <= a < b < |parts| && r.error in parts[a] && r.error in parts[b]
  {
    hide Apart;
    var merged: Verdicts := map[];
    assert Apart(parts, 0) by { NothingToMerge(parts); }
    for k := 0 to |parts|
      invariant merged == Merged(parts, k) && Apart(parts, k)
    {
      var more := MergePart(merged, parts[k]);
      if more.Err? {
        var i := MergedFrom(parts, k, more.error);
        NotApart(parts, i, k, more.error);
        return more;
      }
      ApartNext(parts, k);
      merged := more.value;
    }
    r := Ok(merged);
  }

  lemma NothingToMerge(parts: seq<Verdicts>)
    ensures Apart(parts, 0)
  {
  }

  lemma NotApart(parts: seq<Verdicts>, a: nat, b: nat, journey: string)
    requires a < b < |parts| && journey in parts[a] && journey in parts[b]
    ensures !Apart(parts, |parts|)
  {
    assert journey in parts[a].Keys * parts[b].Keys;
  }

  function Restrict(part: Verdicts, keys: set<string>): Verdicts {
    map j | j in keys && j in part :: part[j]
  }

  lemma RestrictMore(merged: Verdicts, part: Verdicts, keys: set<string>, journey: string)
    requires journey in part
    ensures (merged + Restrict(part, keys))[journey := part[journey]] == merged + Restrict(part, keys + {journey})
  {
  }

  lemma RestrictWhole(part: Verdicts)
    ensures Restrict(part, part.Keys) == part && Restrict(part, {}) == map[]
  {
  }

  lemma RestrictHas(merged: Verdicts, part: Verdicts, keys: set<string>, journey: string)
    requires journey in part && journey !in keys
    ensures journey in merged + Restrict(part, keys) <==> journey in merged
  {
  }

  /** One part's journeys, each refused when it is there already. */
  method MergePart(merged: Verdicts, part: Verdicts) returns (r: Result<Verdicts, string>)
    ensures r.Err? ==> r.error in part && r.error in merged
    ensures r.Ok? ==> r.value == merged + part && merged.Keys !! part.Keys
  {
    hide Restrict;
    var all, left := merged, part.Keys;
    RestrictWhole(part);
    assert part.Keys - left == {};
    while left != {}
      invariant left <= part.Keys
      invariant (part.Keys - left) !! merged.Keys
      invariant all == merged + Restrict(part, part.Keys - left)
      decreases left
    {
      var j :| j in left;
      RestrictHas(merged, part, part.Keys - left, j);
      if j in all {
        return Err(j);
      }
      RestrictMore(merged, part, part.Keys - left, j);
      OneLess(part.Keys, left, j);
      all, left := all[j := part[j]], left - {j};
    }
    assert part.Keys - left == part.Keys;
    r := Ok(all);
  }

  lemma OneLess(keys: set<string>, left: set<string>, journey: string)
    requires left <= keys && journey in left
    ensures keys - (left - {journey}) == (keys - left) + {journey}
  {
  }

  // --- The streak ---

  /** The journey's verdicts in the runs that have one, in the runs' order. */
  function Present(journey: string, history: seq<Option<Verdicts>>): seq<Verdict> {
    if history == [] then []
    else
      (if history[0].Some? && journey in history[0].value then [history[0].value[journey]] else [])
      + Present(journey, history[1..])
  }

  function LeadingFails(verdicts: seq<Verdict>): nat {
    if verdicts == [] || verdicts[0].word != FAIL then 0 else 1 + LeadingFails(verdicts[1..])
  }

  lemma PresentFrom(journey: string, history: seq<Option<Verdicts>>, k: nat)
    requires k < |history|
    ensures var here, later := Present(journey, history[k..]), Present(journey, history[k + 1..]);
            if history[k].Some? && journey in history[k].value
            then here != [] && here[0] == history[k].value[journey] && here[1..] == later
            else here == later
  {
    assert history[k..][1..] == history[k + 1..];
  }

  /** The length of the journey's latest streak of failures, absent runs left out. */
  method FailedInARow(journey: string, history: seq<Option<Verdicts>>) returns (count: nat)
    ensures count == LeadingFails(Present(journey, history))
  {
    count := 0;
    for k := 0 to |history|
      invariant LeadingFails(Present(journey, history)) == count + LeadingFails(Present(journey, history[k..]))
    {
      PresentFrom(journey, history, k);
      if history[k].None? || journey !in history[k].value {
        continue;
      }
      var verdict := history[k].value[journey];
      if verdict.word != FAIL {
        break;
      }
      count := count + 1;
    }
  }

  // --- The open issues ---

  /** The last step named, if one is. */
  function LastNamed(body: Option<int>, comments: seq<Option<int>>): Option<int> {
    if comments == [] then body
    else if comments[|comments| - 1].Some? then comments[|comments| - 1]
    else LastNamed(body, comments[..|comments| - 1])
  }

  function Named(issue: Issue): Option<int> {
    LastNamed(issue.body, issue.comments)
  }

  method LatestStep(issue: Issue) returns (step: Option<int>)
    ensures step == Named(issue)
  {
    step := issue.body;
    for k := 0 to |issue.comments|
      invariant step == LastNamed(issue.body, issue.comments[..k])
    {
      assert issue.comments[..k + 1][..k] == issue.comments[..k];
      if issue.comments[k].Some? {
        step := issue.comments[k];
      }
    }
    assert issue.comments[..|issue.comments|] == issue.comments;
  }

  /** Among the issues numbered below `n`, each guide's newest. */
  function Found(open: map<nat, Issue>, n: nat): map<string, OpenIssue> {
    if n == 0 then map[]
    else if n - 1 in open then Found(open, n - 1)[open[n - 1].guide := OpenIssue(n - 1, Named(open[n - 1]))]
    else Found(open, n - 1)
  }

  method FindIssues(open: map<nat, Issue>, next: nat) returns (found: map<string, OpenIssue>)
    ensures found == Found(open, next)
  {
    found := map[];
    for n := 0 to next
      invariant found == Found(open, n)
    {
      if n in open {
        var step := LatestStep(open[n]);
        found := found[open[n].guide := OpenIssue(n, step)];
      }
    }
  }

  // --- The listing ---

  /** An issue as the tracker lists it: its title, whether the workflow's own account opened it,
      the step its body names, and its comments with the same two things. */
  datatype Listing = Listing(title: string, ours: bool, body: Option<int>, comments: seq<(bool, Option<int>)>)

  const TITLE_START := "Docs journey ("
  const TITLE_END := ") is red"

  /** A guide's path has no parenthesis and no white space. */
  predicate IsGuide(s: string) {
    s != "" && forall k :: 0 <= k < |s| ==> s[k] != '(' && s[k] != ')' && !Text.IsSpace(s[k])
  }

  function TitleOf(guide: string): string {
    TITLE_START + guide + TITLE_END
  }

  /** The guide a title names; the pattern's `$` also stands before a final line break. */
  function GuideOf(title: string): Option<string> {
    var line := if title != "" && title[|title| - 1] == '\n' then title[..|title| - 1] else title;
    var from, to := |TITLE_START|, |line| - |TITLE_END|;
    if from <= to && TITLE_START <= line && line[to..] == TITLE_END && IsGuide(line[from..to]) then Some(line[from..to])
    else None
  }

  /** The title an issue is opened with names its guide. */
  lemma GuideOfTitle(guide: string)
    ensures GuideOf(TitleOf(guide)) == if IsGuide(guide) then Some(guide) else None
  {
    var title := TitleOf(guide);
    var from, to := |TITLE_START|, |title| - |TITLE_END|;
    assert title[|title| - 1] == TITLE_END[|TITLE_END| - 1];
    assert title[..from] == TITLE_START && title[from..to] == guide && title[to..] == TITLE_END;
  }

  function OwnSteps(comments: seq<(bool, Option<int>)>): seq<Option<int>> {
    if comments == [] then []
    else
      OwnSteps(comments[..|comments| - 1])
      + if comments[|comments| - 1].0 then [comments[|comments| - 1].1] else []
  }

  predicate IsOurs(l: Listing) {
    l.ours && GuideOf(l.title).Some?
  }

  /** The workflow's own issues among those listed, with its own comments. */
  function Ours(listed: map<nat, Listing>): map<nat, Issue> {
    map n | n in listed && IsOurs(listed[n]) ::
      Issue(GuideOf(listed[n].title).value, listed[n].body, OwnSteps(listed[n].comments))
  }

  method OwnLatestStep(l: Listing, guide: string) returns (step: Option<int>)
    ensures step == Named(Issue(guide, l.body, OwnSteps(l.comments)))
  {
    step := l.body;
    for k := 0 to |l.comments|
      invariant step == LastNamed(l.body, OwnSteps(l.comments[..k]))
    {
      assert l.comments[..k + 1][..k] == l.comments[..k];
      var (own, named) := l.comments[k];
      ghost var before := OwnSteps(l.comments[..k]);
      assert own ==> (before + [named])[..|before|] == before;
      assert !own ==> before + [] == before;
      if own {
        if named.Some? {
          step := named;
        }
      }
    }
    assert l.comments[..|l.comments|] == l.comments;
  }

  /** Each guide's newest open issue, of those the workflow filed. */
  method ReadIssues(listed: map<nat, Listing>, next: nat) returns (found: map<string, OpenIssue>)
    ensures found == Found(Ours(listed), next)
  {
    hide GuideOf, Named, OwnSteps;
    found := map[];
    for n := 0 to next
      invariant found == Found(Ours(listed), n)
    {
      if n in listed {
        var guide := GuideOf(listed[n].title);
        if guide.Some? && listed[n].ours {
          var step := OwnLatestStep(listed[n], guide.value);
          found := found[guide.value := OpenIssue(n, step)];
        }
      }
    }
  }

  // --- The decision ---

  /** The header's template is the verdict's; asked only where something may be posted. */
  predicate Renders(v: Verdict, issues: map<string, OpenIssue>) {
    v.word == FAIL || v.guide in issues ==> v.template == TemplateOf(v.word)
  }

  function ItemOf(journey: string, v: Verdict, history: seq<Option<Verdicts>>, issues: map<string, OpenIssue>): Item {
    if v.word == FAIL then
      if v.guide !in issues then
        if LeadingFails(Present(journey, history)) + 1 >= OPEN_AFTER then Open(v.guide, v.step) else Nothing(v.guide)
      else if issues[v.guide].step != Some(v.step) then Comment(v.guide, issues[v.guide].number, v.step)
      else Nothing(v.guide)
    else if v.guide in issues then Close(v.guide, issues[v.guide].number)
    else Nothing(v.guide)
  }

  /** One item a journey, in the journeys' order. */
  function Items(current: Verdicts, history: seq<Option<Verdicts>>, issues: map<string, OpenIssue>): (items: seq<Item>)
    ensures |items| == |Sorted(current.Keys)|
  {
    var order := Sorted(current.Keys);
    seq(|order|, k requires 0 <= k < |order| =>
      Member(order, k, current.Keys);
      ItemOf(order[k], current[order[k]], history, issues))
  }

  lemma Member(order: seq<string>, k: nat, keys: set<string>)
    requires k < |order| && forall y :: y in order <==> y in keys
    ensures order[k] in keys
  {
    assert order[k] in order;
  }

  /** What to post for this run; refused, with the first journey in order whose header is not
      its verdict's. */
  method Decide(current: Verdicts, history: seq<Option<Verdicts>>, issues: map<string, OpenIssue>)
    returns (r: Result<seq<Item>, string>)
    ensures r.Ok? ==> (forall j :: j in current ==> Renders(current[j], issues))
                      && r.value == Items(current, history, issues)
    ensures r.Err? ==> r.error in current && !Renders(current[r.error], issues)
    ensures r.Err? ==> forall j :: j in current && j != r.error && AtMost(j, r.error) ==> Renders(current[j], issues)
  {
    hide AtMost, Present, TemplateOf, ItemOf, Items, Sorted, StrictlySorted, Renders;
    var order := Sorted(current.Keys);
    var out: seq<Item> := [];
    for k := 0 to |order|
      invariant |out| == k && out == Items(current, history, issues)[..k]
      invariant forall i :: 0 <= i < k ==> order[i] in current && Renders(current[order[i]], issues)
    {
      var journey := order[k];
      Member(order, k, current.Keys);
      var verdict := current[journey];
      if !Renders(verdict, issues) {
        FirstInOrder(order, k);
        return Err(journey);
      }
      var item := DecideOne(journey, verdict, history, issues);
      ItemAt(current, history, issues, k);
      out := out + [item];
    }
    r := Ok(out);
  }

  lemma ItemAt(current: Verdicts, history: seq<Option<Verdicts>>, issues: map<string, OpenIssue>, k: nat)
    requires k < |Sorted(current.Keys)|
    ensures var order := Sorted(current.Keys);
            && order[k] in current
            && Items(current, history, issues)[k] == ItemOf(order[k], current[order[k]], history, issues)
  {
    hide ItemOf;
    Member(Sorted(current.Keys), k, current.Keys);
  }

  /** What to post for one journey. */
  method DecideOne(journey: string, verdict: Verdict, history: seq<Option<Verdicts>>, issues: map<string, OpenIssue>)
    returns (item: Item)
    ensures item == ItemOf(journey, verdict, history, issues)
  {
    if verdict.word == FAIL {
      if verdict.guide !in issues {
        var failed := FailedInARow(journey, history);
        var streak := failed + 1;
        item := if streak >= OPEN_AFTER then Open(verdict.guide, verdict.step) else Nothing(verdict.guide);
      } else if issues[verdict.guide].step != Some(verdict.step) {
        item := Comment(verdict.guide, issues[verdict.guide].number, verdict.step);
      } else {
        item := Nothing(verdict.guide);
      }
    } else if verdict.guide in issues {
      item := Close(verdict.guide, issues[verdict.guide].number);
    } else {
      item := Nothing(verdict.guide);
    }
  }

  /** In a sorted list, what is at most an element and is not it stands before it. */
  lemma FirstInOrder(order: seq<string>, k: nat)
    requires StrictlySorted(order) && k < |order|
    ensures forall j :: j in order && j != order[k] && AtMost(j, order[k]) ==> exists i :: 0 <= i < k && order[i] == j
  {
    hide AtMost;
    forall j | j in order && j != order[k] && AtMost(j, order[k])
      ensures exists i :: 0 <= i < k && order[i] == j
    {
      var i :| 0 <= i < |order| && order[i] == j;
      if i > k {
        Antisymmetric(j, order[k]);
      }
    }
  }

  // --- Night after night ---

  /** The open issues, the scheduled runs so far, newest first (`None` for one that left no
      verdicts), and the number the next issue gets. */
  datatype State = State(open: map<nat, Issue>, past: seq<Option<Verdicts>>, next: nat)

  const START := State(map[], [], 0)

  /** The runs read before this one: the listing holds this run too. */
  function Earlier(past: seq<Option<Verdicts>>): seq<Option<Verdicts>> {
    if |past| < HISTORY_LIMIT then past else past[..HISTORY_LIMIT - 1]
  }

  /** What posting an item does. */
  function Post(s: State, item: Item): State {
    match item
    case Open(guide, step) => s.(open := s.open[s.next := Issue(guide, Some(step), [])], next := s.next + 1)
    case Comment(_, n, step) =>
      if n in s.open then s.(open := s.open[n := s.open[n].(comments := s.open[n].comments + [Some(step)])]) else s
    case Close(_, n) => s.(open := s.open - {n})
    case Nothing(_) => s
  }

  function PostAll(s: State, items: seq<Item>): State {
    if items == [] then s else Post(PostAll(s, items[..|items| - 1]), items[|items| - 1])
  }

  /** A scheduled run's report on the issues it read, carried out; one that is refused posts
      nothing. */
  function AfterReading(s: State, tonight: Option<Verdicts>, issues: map<string, OpenIssue>): State {
    var posted :=
      if tonight.None? then s
      else if forall j :: j in tonight.value ==> Renders(tonight.value[j], issues)
      then PostAll(s, Items(tonight.value, Earlier(s.past), issues))
      else s;
    posted.(past := [tonight] + s.past)
  }

  /** The same where nobody else has issues. */
  function After(s: State, tonight: Option<Verdicts>): State {
    AfterReading(s, tonight, Found(s.open, s.next))
  }

  /** A scheduled run where others open issues and comment too: what it brings, the issues
      listed, and the number the next issue gets. */
  datatype ListedRun = ListedRun(tonight: Option<Verdicts>, listed: map<nat, Listing>, next: nat)

  function AfterListed(s: State, night: ListedRun): State {
    AfterReading(s.(next := night.next), night.tonight, Found(Ours(night.listed), night.next))
  }

  /** Without a failure the earlier runs do not matter. */
  lemma HistoryUnused(current: Verdicts, history: seq<Option<Verdicts>>, issues: map<string, OpenIssue>)
    requires forall j :: j in current ==> current[j].word != FAIL
    ensures Items(current, [], issues) == Items(current, history, issues)
  {
    hide Present;
    var order := Sorted(current.Keys);
    forall k | 0 <= k < |order|
      ensures Items(current, [], issues)[k] == Items(current, history, issues)[k]
    {
      Member(order, k, current.Keys);
    }
  }

  class Tracker {
    var open: map<nat, Issue>
    var past: seq<Option<Verdicts>>
    var next: nat

    function Now(): State
      reads this
    {
      State(open, past, next)
    }

    constructor ()
      ensures Now() == START
    {
      open, past, next := map[], [], 0;
    }

    method Carry(items: seq<Item>)
      modifies `open, `next
      ensures Now() == PostAll(old(Now()), items)
    {
      for k := 0 to |items|
        invariant Now() == PostAll(old(Now()), items[..k])
      {
        assert items[..k + 1][..k] == items[..k];
        match items[k] {
          case Open(guide, step) =>
            open, next := open[next := Issue(guide, Some(step), [])], next + 1;
          case Comment(_, n, step) =>
            if n in open {
              open := open[n := open[n].(comments := open[n].comments + [Some(step)])];
            }
          case Close(_, n) =>
            open := open - {n};
          case Nothing(_) =>
        }
      }
      assert items[..|items|] == items;
    }

    /** What a scheduled run decides on the issues read, carried out, and the run remembered. */
    method Report(tonight: Option<Verdicts>, issues: map<string, OpenIssue>)
      modifies this
      ensures Now() == AfterReading(old(Now()), tonight, issues)
    {
      hide Items, Renders, PostAll;
      if tonight.Some? {
        var history: seq<Option<Verdicts>> := [];
        if exists j :: j in tonight.value && tonight.value[j].word == FAIL {
          history := Earlier(past);
        } else {
          HistoryUnused(tonight.value, Earlier(past), issues);
        }
        var items := Decide(tonight.value, history, issues);
        if items.Ok? {
          Carry(items.value);
        }
      }
      past := [tonight] + past;
    }

    /** A report; only a scheduled run on the main branch is counted and posts. */
    method Night(tonight: Option<Verdicts>, counted: bool)
      modifies this
      ensures Now() == if counted then After(old(Now()), tonight) else old(Now())
    {
      if !counted {
        return;
      }
      hide AfterReading, Found;
      var issues := FindIssues(open, next);
      Report(tonight, issues);
    }

    /** The same on the tracker's own listing, whoever else has issues there. */
    method ListedNight(night: ListedRun, counted: bool)
      modifies this
      ensures Now() == if counted then AfterListed(old(Now()), night) else old(Now())
    {
      if !counted {
        return;
      }
      hide AfterReading, Found, Ours;
      var issues := ReadIssues(night.listed, night.next);
      next := night.next;
      Report(night.tonight, issues);
    }
  }
}
