/** What the rolling issues say, over every sequence of nightly runs. */
module RollingFacts {
  import opened Wrappers
  import opened Ordering
  import opened RollingIssue
  import opened Sequences
  import Text

  ghost predicate Injective(guideOf: string -> string) {
    forall i, j :: guideOf(i) == guideOf(j) ==> i == j
  }

  /** A run as the runner writes it: each journey's guide is its own, and each header its verdict's. */
  ghost predicate Fair(tonight: Option<Verdicts>, guideOf: string -> string) {
    tonight.Some? ==> forall j :: j in tonight.value ==>
      tonight.value[j].guide == guideOf(j) && tonight.value[j].template == TemplateOf(tonight.value[j].word)
  }

  // --- The issues of a state ---

  predicate Unique(open: map<nat, Issue>) {
    forall m, n :: m in open && n in open && open[m].guide == open[n].guide ==> m == n
  }

  /** At most one open issue a guide, and no number used again. */
  predicate Sound(s: State) {
    Unique(s.open) && forall n :: n in s.open ==> n < s.next
  }

  function IssueOf(s: State, guide: string): Option<OpenIssue> {
    var found := Found(s.open, s.next);
    if guide in found then Some(found[guide]) else None
  }

  lemma {:induction false} FoundHas(open: map<nat, Issue>, n: nat, m: nat)
    requires Unique(open) && m < n && m in open
    ensures open[m].guide in Found(open, n) && Found(open, n)[open[m].guide] == OpenIssue(m, Named(open[m]))
  {
    hide Named;
    if m < n - 1 {
      FoundHas(open, n - 1, m);
    }
  }

  lemma {:induction false} FoundFrom(open: map<nat, Issue>, n: nat, guide: string)
    requires guide in Found(open, n)
    ensures var o := Found(open, n)[guide];
            o.number < n && o.number in open && open[o.number].guide == guide && o.step == Named(open[o.number])
  {
    hide Named;
    if !(n - 1 in open && open[n - 1].guide == guide) {
      FoundFrom(open, n - 1, guide);
    }
  }

  lemma IssueIs(s: State, n: nat)
    requires Sound(s) && n in s.open
    ensures IssueOf(s, s.open[n].guide) == Some(OpenIssue(n, Named(s.open[n])))
  {
    hide Found, Named;
    FoundHas(s.open, s.next, n);
  }

  lemma IssueFrom(s: State, guide: string)
    requires Sound(s)
    ensures var o := IssueOf(s, guide);
            if o.Some?
            then o.value.number in s.open && s.open[o.value.number].guide == guide
                 && o.value.step == Named(s.open[o.value.number])
            else forall n :: n in s.open ==> s.open[n].guide != guide
  {
    hide Named;
    if guide in Found(s.open, s.next) {
      FoundFrom(s.open, s.next, guide);
    } else {
      forall n | n in s.open ensures s.open[n].guide != guide {
        FoundHas(s.open, s.next, n);
      }
    }
  }

  // --- Posting ---

  predicate Fits(s: State, item: Item) {
    match item
    case Open(guide, _) => IssueOf(s, guide).None?
    case Comment(guide, n, _) => IssueOf(s, guide).Some? && IssueOf(s, guide).value.number == n
    case Close(guide, n) => IssueOf(s, guide).Some? && IssueOf(s, guide).value.number == n
    case Nothing(_) => true
  }

  /** What an item leaves of its own guide's issue. */
  predicate Leaves(item: Item, before: Option<OpenIssue>, now: Option<OpenIssue>) {
    match item
    case Open(_, step) => now.Some? && now.value.step == Some(step)
    case Comment(_, _, step) => now.Some? && now.value.step == Some(step)
    case Close(_, _) => now.None?
    case Nothing(_) => now == before
  }

  lemma PostIsSound(s: State, item: Item)
    requires Sound(s) && Fits(s, item)
    ensures Sound(Post(s, item))
  {
    hide Found, Named, IssueOf;
    IssueFrom(s, item.guide);
  }

  /** Both states have the same issues of a guide. */
  lemma SameIssue(s: State, t: State, guide: string)
    requires Sound(s) && Sound(t)
    requires forall n :: (n in s.open && s.open[n].guide == guide) <==> (n in t.open && t.open[n].guide == guide)
    requires forall n :: n in s.open && s.open[n].guide == guide ==> s.open[n] == t.open[n]
    ensures IssueOf(s, guide) == IssueOf(t, guide)
  {
    hide Found, Named, IssueOf, Unique;
    IssueFrom(s, guide);
    IssueFrom(t, guide);
    if IssueOf(s, guide).Some? {
      IssueIs(t, IssueOf(s, guide).value.number);
    }
  }

  lemma PostElsewhere(s: State, item: Item, guide: string)
    requires Sound(s) && Fits(s, item) && guide != item.guide
    ensures IssueOf(Post(s, item), guide) == IssueOf(s, guide)
  {
    hide Found, Named, IssueOf, Sound;
    PostIsSound(s, item);
    Distinct(s, item, guide);
    SameIssue(s, Post(s, item), guide);
  }

  lemma Distinct(s: State, item: Item, guide: string)
    requires Sound(s) && Fits(s, item) && guide != item.guide
    ensures var t := Post(s, item);
            && (forall n :: (n in s.open && s.open[n].guide == guide) <==> (n in t.open && t.open[n].guide == guide))
            && forall n :: n in s.open && s.open[n].guide == guide ==> s.open[n] == t.open[n]
  {
    hide Found, Named, IssueOf, Unique;
    IssueFrom(s, item.guide);
  }

  lemma PostHere(s: State, item: Item)
    requires Sound(s) && Fits(s, item)
    ensures Leaves(item, IssueOf(s, item.guide), IssueOf(Post(s, item), item.guide))
  {
    hide Found, Named, IssueOf, Sound;
    PostIsSound(s, item);
    var t := Post(s, item);
    IssueFrom(s, item.guide);
    match item
    case Open(guide, step) =>
      IssueIs(t, s.next);
      NamedLast(t.open[s.next], step);
    case Comment(guide, n, step) =>
      IssueIs(t, n);
      NamedLast(t.open[n], step);
    case Close(guide, n) =>
      NoneLeft(s, guide, n);
    case Nothing(_) =>
  }

  lemma NamedLast(issue: Issue, step: int)
    requires if issue.comments == []
             then issue.body == Some(step)
             else issue.comments[|issue.comments| - 1] == Some(step)
    ensures Named(issue) == Some(step)
  {
  }

  lemma NoneLeft(s: State, guide: string, n: nat)
    requires Sound(s) && n in s.open && s.open[n].guide == guide
    ensures Sound(s.(open := s.open - {n})) && IssueOf(s.(open := s.open - {n}), guide).None?
  {
    hide Found, Named, IssueOf;
    var t := s.(open := s.open - {n});
    IssueFrom(t, guide);
  }

  /** The items of one run, for guides of their own, posted one after the other. */
  lemma {:induction false} PostUpTo(s: State, items: seq<Item>, k: nat, guide: string, p: nat)
    requires Sound(s) && k <= |items|
    requires forall i :: 0 <= i < |items| ==> Fits(s, items[i])
    requires forall i, j :: 0 <= i < j < |items| ==> items[i].guide != items[j].guide
    requires forall i :: 0 <= i < |items| && items[i].guide == guide ==> i == p
    ensures var t := PostAll(s, items[..k]);
            && Sound(t) && t.past == s.past
            && if p < k && items[p].guide == guide
               then Leaves(items[p], IssueOf(s, guide), IssueOf(t, guide))
               else IssueOf(t, guide) == IssueOf(s, guide)
    decreases k
  {
    hide Sound, IssueOf, Post, Leaves;
    if k > 0 {
      var item := items[k - 1];
      assert items[..k][..k - 1] == items[..k - 1];
      var t := PostAll(s, items[..k - 1]);
      PostUpTo(s, items, k - 1, item.guide, k - 1);
      PostUpTo(s, items, k - 1, guide, p);
      PostIsSound(t, item);
      PostPast(t, item);
      if guide == item.guide {
        PostHere(t, item);
      } else {
        PostElsewhere(t, item, guide);
      }
    }
  }

  lemma PostPast(s: State, item: Item)
    ensures Post(s, item).past == s.past
  {
  }

  // --- One night ---

  /** What a night must leave of a journey's issue. */
  predicate Rolled(journey: string, s: State, tonight: Option<Verdicts>, before: Option<OpenIssue>,
                   now: Option<OpenIssue>) {
    if tonight.None? || journey !in tonight.value then now == before
    else
      var v := tonight.value[journey];
      if v.word == FAIL && (before.Some? || LastRed(journey, Earlier(s.past)))
      then now.Some? && now.value.step == Some(v.step)
      else now.None?
  }

  /** The journey's latest verdict in these runs, newest first, is a failure. */
  predicate LastRed(journey: string, history: seq<Option<Verdicts>>) {
    var seen := Present(journey, history);
    seen != [] && seen[0].word == FAIL
  }

  /** Each item is for its journey's guide and fits the issues it was decided on. */
  lemma ItemFits(s: State, current: Verdicts, history: seq<Option<Verdicts>>, guideOf: string -> string, i: nat)
    requires Fair(Some(current), guideOf) && i < |Sorted(current.Keys)|
    ensures var order, items := Sorted(current.Keys), Items(current, history, Found(s.open, s.next));
            && order[i] in current && items[i].guide == guideOf(order[i]) && Fits(s, items[i])
            && items[i] == ItemOf(order[i], current[order[i]], history, Found(s.open, s.next))
  {
    hide Found, Present, LeadingFails, StrictlySorted, Sorted;
    Member(Sorted(current.Keys), i, current.Keys);
  }

  lemma GuidesDiffer(order: seq<string>, guideOf: string -> string, i: nat)
    requires Injective(guideOf) && StrictlySorted(order) && i < |order|
    ensures forall j :: i < j < |order| ==> guideOf(order[i]) != guideOf(order[j])
  {
    hide AtMost;
  }

  lemma NightOf(s: State, current: Verdicts, guideOf: string -> string, journey: string)
    requires Sound(s) && Injective(guideOf) && Fair(Some(current), guideOf)
    ensures var t := PostAll(s, Items(current, Earlier(s.past), Found(s.open, s.next)));
            && Sound(t) && t.past == s.past
            && Rolled(journey, s, Some(current), IssueOf(s, guideOf(journey)), IssueOf(t, guideOf(journey)))
  {
    hide Sound, Fits, Post, PostAll, Items, Found, Earlier, Present, StrictlySorted, Fair, Injective, Rolled;
    var history := Earlier(s.past);
    var order, items := Sorted(current.Keys), Items(current, history, Found(s.open, s.next));
    var guide := guideOf(journey);
    forall i: nat | i < |items|
      ensures items[i].guide == guideOf(order[i]) && Fits(s, items[i])
      ensures forall j :: i < j < |order| ==> guideOf(order[i]) != guideOf(order[j])
    {
      ItemFits(s, current, history, guideOf, i);
      GuidesDiffer(order, guideOf, i);
    }
    var p := PlaceOf(order, journey, guideOf, current);
    PostUpTo(s, items, |items|, guide, p);
    assert items[..|items|] == items;
    if p < |order| {
      ItemFits(s, current, history, guideOf, p);
      RolledByItem(s, current, guideOf, journey, items[p], PostAll(s, items));
    } else {
      NotRolled(s, current, journey, IssueOf(s, guide));
    }
  }

  lemma NotRolled(s: State, current: Verdicts, journey: string, o: Option<OpenIssue>)
    requires journey !in current
    ensures Rolled(journey, s, Some(current), o, o)
  {
  }

  lemma RolledByItem(s: State, current: Verdicts, guideOf: string -> string, journey: string, item: Item, t: State)
    requires Fair(Some(current), guideOf) && journey in current
    requires item == ItemOf(journey, current[journey], Earlier(s.past), Found(s.open, s.next))
    requires Leaves(item, IssueOf(s, guideOf(journey)), IssueOf(t, guideOf(journey)))
    ensures Rolled(journey, s, Some(current), IssueOf(s, guideOf(journey)), IssueOf(t, guideOf(journey)))
  {
    hide Found, Present, Earlier;
  }

  /** Where the journey stands in the run's order, or past its end. */
  lemma PlaceOf(order: seq<string>, journey: string, guideOf: string -> string, current: Verdicts) returns (p: nat)
    requires Injective(guideOf) && order == Sorted(current.Keys)
    ensures if journey in current then p < |order| && order[p] == journey else p == |order|
    ensures forall i :: 0 <= i < |order| && guideOf(order[i]) == guideOf(journey) ==> i == p
  {
    hide Sorted, AtMost;
    if journey in current {
      assert journey in order;
      p :| 0 <= p < |order| && order[p] == journey;
    } else {
      p := |order|;
      assert forall i :: 0 <= i < |order| ==> order[i] in order;
    }
  }

  /** Every night, whatever it brings: at most one issue a guide, each failing guide's issue
      names its failing step, and each guide's issue opens, stays and closes as the rules say. */
  lemma NightIsRolled(s: State, tonight: Option<Verdicts>, guideOf: string -> string, journey: string)
    requires Sound(s) && Injective(guideOf) && Fair(tonight, guideOf)
    ensures var t := After(s, tonight);
            && Sound(t) && t.past == [tonight] + s.past
            && Rolled(journey, s, tonight, IssueOf(s, guideOf(journey)), IssueOf(t, guideOf(journey)))
  {
    hide Found, Present, Items, PostAll, Earlier, Injective;
    if tonight.Some? {
      assert forall j :: j in tonight.value ==> Renders(tonight.value[j], Found(s.open, s.next));
      NightOf(s, tonight.value, guideOf, journey);
    }
  }

  // --- Every run ---

  /** The state after these nights, the first one first. */
  function RunOf(nights: seq<Option<Verdicts>>): State {
    if nights == [] then START else After(RunOf(nights[..|nights| - 1]), nights[|nights| - 1])
  }

  /** The journey's issue is open after these runs, newest first, by what the rules make of the
      verdicts alone. */
  predicate Opened(journey: string, past: seq<Option<Verdicts>>) {
    past != [] &&
    if past[0].None? || journey !in past[0].value then Opened(journey, past[1..])
    else past[0].value[journey].word == FAIL && (Opened(journey, past[1..]) || LastRed(journey, Earlier(past[1..])))
  }

  /** The issue agrees with the verdicts: open when it should be, and naming the latest step. */
  predicate Agrees(journey: string, past: seq<Option<Verdicts>>, issue: Option<OpenIssue>) {
    var seen := Present(journey, past);
    && (issue.Some? <==> Opened(journey, past))
    && (issue.Some? ==> seen != [] && issue.value.step == Some(seen[0].step))
  }

  lemma AgreesStill(journey: string, s: State, tonight: Option<Verdicts>, before: Option<OpenIssue>,
                    now: Option<OpenIssue>)
    requires Agrees(journey, s.past, before) && Rolled(journey, s, tonight, before, now)
    ensures Agrees(journey, [tonight] + s.past, now)
  {
    hide Earlier, LastRed;
    var past := [tonight] + s.past;
    assert past[1..] == s.past;
  }

  lemma {:induction false} RunAgrees(nights: seq<Option<Verdicts>>, guideOf: string -> string, journey: string)
    requires Injective(guideOf) && forall k :: 0 <= k < |nights| ==> Fair(nights[k], guideOf)
    ensures var s := RunOf(nights);
            Sound(s) && |s.past| == |nights| && Agrees(journey, s.past, IssueOf(s, guideOf(journey)))
  {
    hide Injective, Fair, After, Rolled, IssueOf, Agrees, Sound;
    if nights == [] {
      NothingOpen(guideOf, journey);
    } else {
      var earlier, tonight := nights[..|nights| - 1], nights[|nights| - 1];
      var s := RunOf(earlier);
      RunAgrees(earlier, guideOf, journey);
      NightIsRolled(s, tonight, guideOf, journey);
      AgreesStill(journey, s, tonight, IssueOf(s, guideOf(journey)), IssueOf(After(s, tonight), guideOf(journey)));
    }
  }

  lemma NothingOpen(guideOf: string -> string, journey: string)
    ensures Sound(START) && IssueOf(START, guideOf(journey)).None? && Agrees(journey, [], None)
  {
  }

  // --- When an issue is open, in terms of the verdicts ---

  predicate Has(journey: string, night: Option<Verdicts>) {
    night.Some? && journey in night.value
  }

  /** Night `k` has the journey, and no verdict of it from there to the latest is not a failure. */
  predicate RedSince(journey: string, past: seq<Option<Verdicts>>, k: nat) {
    && k < |past| && Has(journey, past[k])
    && forall i :: 0 <= i <= k && Has(journey, past[i]) ==> past[i].value[journey].word == FAIL
  }

  /** A failure the report saw another one before. */
  predicate Opens(journey: string, past: seq<Option<Verdicts>>, k: nat) {
    RedSince(journey, past, k) && LastRed(journey, Earlier(past[k + 1..]))
  }

  lemma RedSinceNext(journey: string, past: seq<Option<Verdicts>>, k: nat)
    requires past != []
    ensures RedSince(journey, past, k + 1)
            <==> RedSince(journey, past[1..], k) && (Has(journey, past[0]) ==> past[0].value[journey].word == FAIL)
  {
    var tail := past[1..];
    if RedSince(journey, past, k + 1) {
      assert forall i :: 0 <= i <= k ==> tail[i] == past[i + 1];
    }
    if RedSince(journey, tail, k) && (Has(journey, past[0]) ==> past[0].value[journey].word == FAIL) {
      assert tail[k] == past[k + 1];
      assert forall i :: 1 <= i <= k + 1 ==> past[i] == tail[i - 1];
    }
  }

  lemma OpensNext(journey: string, past: seq<Option<Verdicts>>, k: nat)
    requires past != []
    ensures Opens(journey, past, k + 1)
            <==> Opens(journey, past[1..], k) && (Has(journey, past[0]) ==> past[0].value[journey].word == FAIL)
  {
    hide LastRed, Earlier, RedSince;
    RedSinceNext(journey, past, k);
    if RedSince(journey, past[1..], k) && (Has(journey, past[0]) ==> past[0].value[journey].word == FAIL) {
      RedLies(journey, past, k + 1);
      assert past[1..][k + 1..] == past[k + 2..];
    }
  }

  lemma RedLies(journey: string, past: seq<Option<Verdicts>>, k: nat)
    requires RedSince(journey, past, k)
    ensures k < |past|
  {
  }

  /** An issue is open exactly when, since the last verdict that was not a failure, some failing
      run found a failure as the latest verdict of the runs it read. */
  lemma {:induction false} OpenedIsExact(journey: string, past: seq<Option<Verdicts>>)
    ensures Opened(journey, past) <==> exists k: nat :: Opens(journey, past, k)
  {
    if past != [] {
      OpenedIsExact(journey, past[1..]);
      if Opened(journey, past) {
        if Opened(journey, past[1..]) {
          var k: nat :| Opens(journey, past[1..], k);
          OpensNext(journey, past, k);
        } else {
          assert Opens(journey, past, 0);
        }
      }
      if exists k: nat :: Opens(journey, past, k) {
        var k: nat :| Opens(journey, past, k);
        if k > 0 {
          OpensNext(journey, past, k - 1);
        }
      }
    }
  }

  lemma {:induction false} PresentAppend(journey: string, a: seq<Option<Verdicts>>, b: seq<Option<Verdicts>>)
    ensures Present(journey, a + b) == Present(journey, a) + Present(journey, b)
  {
    if a == [] {
      assert a + b == b && [] + Present(journey, b) == Present(journey, b);
    } else {
      PresentAppend(journey, a[1..], b);
      assert (a + b)[1..] == a[1..] + b && (a + b)[0] == a[0];
      PresentFirst(journey, a);
      PresentFirst(journey, a + b);
      hide Present;
      Assoc(Here(journey, a[0]), Present(journey, a[1..]), Present(journey, b));
    }
  }

  function Here(journey: string, night: Option<Verdicts>): seq<Verdict> {
    if night.Some? && journey in night.value then [night.value[journey]] else []
  }

  lemma PresentFirst(journey: string, past: seq<Option<Verdicts>>)
    requires past != []
    ensures Present(journey, past) == Here(journey, past[0]) + Present(journey, past[1..])
  {
  }

  /** The latest verdict among the runs read is the latest of all. */
  lemma ReadFirst(journey: string, past: seq<Option<Verdicts>>)
    ensures var read, all := Present(journey, Earlier(past)), Present(journey, past);
            read != [] ==> all != [] && all[0] == read[0]
  {
    hide Present;
    if |past| >= HISTORY_LIMIT {
      var n := HISTORY_LIMIT - 1;
      assert past == past[..n] + past[n..];
      PresentAppend(journey, past[..n], past[n..]);
    }
  }

  predicate TwoRed(journey: string, past: seq<Option<Verdicts>>) {
    var seen := Present(journey, past);
    |seen| >= 2 && seen[0].word == FAIL && seen[1].word == FAIL
  }

  /** None opens earlier: an open issue's guide failed in its two latest runs. */
  lemma {:induction false} NoneOpensEarly(journey: string, past: seq<Option<Verdicts>>)
    requires Opened(journey, past)
    ensures TwoRed(journey, past)
  {
    hide Earlier;
    if past[0].None? || journey !in past[0].value {
      NoneOpensEarly(journey, past[1..]);
    } else {
      ReadFirst(journey, past[1..]);
      if Opened(journey, past[1..]) {
        NoneOpensEarly(journey, past[1..]);
      }
    }
  }

  /** Whenever the journey ran before, the runs read then hold a verdict of it. */
  predicate Windowed(journey: string, past: seq<Option<Verdicts>>) {
    forall k :: 0 <= k < |past| && Has(journey, past[k]) ==>
      (Present(journey, past[k + 1..]) != [] ==> Present(journey, Earlier(past[k + 1..])) != [])
  }

  lemma WindowedTail(journey: string, past: seq<Option<Verdicts>>)
    requires past != [] && Windowed(journey, past)
    ensures Windowed(journey, past[1..])
    ensures Has(journey, past[0]) ==>
              (Present(journey, past[1..]) != [] ==> Present(journey, Earlier(past[1..])) != [])
  {
    hide Present, Earlier;
    forall k | 0 <= k < |past[1..]| && Has(journey, past[1..][k])
      ensures Present(journey, past[1..][k + 1..]) != [] ==> Present(journey, Earlier(past[1..][k + 1..])) != []
    {
      assert past[1..][k] == past[k + 1] && past[1..][k + 1..] == past[k + 2..];
    }
  }

  /** Then an issue is open exactly when the guide failed in its two latest runs. */
  lemma {:induction false} WindowedIsTwoRed(journey: string, past: seq<Option<Verdicts>>)
    requires Windowed(journey, past)
    ensures Opened(journey, past) <==> TwoRed(journey, past)
  {
    hide Earlier, Windowed;
    if Opened(journey, past) {
      NoneOpensEarly(journey, past);
    }
    if past != [] {
      WindowedTail(journey, past);
      WindowedIsTwoRed(journey, past[1..]);
      ReadFirst(journey, past[1..]);
    }
  }

  /** What holds of a journey's issue: at most one is open a guide; it is open exactly when the
      runs so far say so, and names the latest failing step; the two latest verdicts are then
      failures, and, with every earlier verdict within the runs read, any two such failures have
      an issue open. */
  ghost predicate Rolls(s: State, guide: string, journey: string) {
    var issue, seen := IssueOf(s, guide), Present(journey, s.past);
    && Unique(s.open)
    && (issue.Some? <==> exists k: nat :: Opens(journey, s.past, k))
    && (issue.Some? ==> TwoRed(journey, s.past) && seen != [] && issue.value.step == Some(seen[0].step))
    && (Windowed(journey, s.past) ==> (issue.Some? <==> TwoRed(journey, s.past)))
  }

  lemma AgreesRolls(s: State, guide: string, journey: string)
    requires Sound(s) && Agrees(journey, s.past, IssueOf(s, guide))
    ensures Rolls(s, guide, journey)
  {
    hide IssueOf, Opens, Opened, Present, Windowed, Unique;
    OpenedIsExact(journey, s.past);
    if Opened(journey, s.past) {
      NoneOpensEarly(journey, s.past);
    }
    if Windowed(journey, s.past) {
      WindowedIsTwoRed(journey, s.past);
    }
  }

  /** The runs remembered are the nights, newest first. */
  lemma {:induction false} PastIs(nights: seq<Option<Verdicts>>, guideOf: string -> string, k: nat)
    requires Injective(guideOf) && forall i :: 0 <= i < |nights| ==> Fair(nights[i], guideOf)
    requires k < |nights|
    ensures |RunOf(nights).past| == |nights| && RunOf(nights).past[k] == nights[|nights| - 1 - k]
  {
    hide Injective, Fair, After, Rolled, IssueOf, Agrees, Sound;
    var earlier, tonight := nights[..|nights| - 1], nights[|nights| - 1];
    RunAgrees(earlier, guideOf, "");
    NightIsRolled(RunOf(earlier), tonight, guideOf, "");
    if k > 0 {
      PastIs(earlier, guideOf, k - 1);
    }
  }

  /** Every run of nights. */
  lemma EveryRun(nights: seq<Option<Verdicts>>, guideOf: string -> string, journey: string)
    requires Injective(guideOf) && forall k :: 0 <= k < |nights| ==> Fair(nights[k], guideOf)
    ensures var s := RunOf(nights);
            && Rolls(s, guideOf(journey), journey)
            && |s.past| == |nights| && forall k :: 0 <= k < |nights| ==> s.past[k] == nights[|nights| - 1 - k]
  {
    hide Injective, Fair, RunOf, IssueOf, Agrees, Rolls, Sound;
    RunAgrees(nights, guideOf, journey);
    AgreesRolls(RunOf(nights), guideOf(journey), journey);
    forall k | 0 <= k < |nights|
      ensures RunOf(nights).past[k] == nights[|nights| - 1 - k]
    {
      PastIs(nights, guideOf, k);
    }
  }

  // --- The window ---

  /** Runs that left no verdicts. */
  function Blank(n: nat): (r: seq<Option<Verdicts>>)
    ensures |r| == n
  {
    seq(n, _ => None)
  }

  lemma {:induction false} BlankHasNone(journey: string, n: nat, rest: seq<Option<Verdicts>>)
    ensures Present(journey, Blank(n) + rest) == Present(journey, rest)
    ensures Opened(journey, Blank(n) + rest) == Opened(journey, rest)
  {
    if n == 0 {
      assert Blank(0) + rest == rest;
    } else {
      assert (Blank(n) + rest)[1..] == Blank(n - 1) + rest;
      BlankHasNone(journey, n - 1, rest);
    }
  }

  /** Two failures with `n` such runs between them: the issue opens exactly while `n` is below
      nine, since the tenth run listed is the night's own. */
  lemma GapDecides(journey: string, v: Verdict, n: nat)
    requires v.word == FAIL
    ensures var red := [Some(map[journey := v])];
            var past := red + (Blank(n) + red);
            TwoRed(journey, past) && (Opened(journey, past) <==> n < HISTORY_LIMIT - 1)
  {
    hide Blank;
    var red: seq<Option<Verdicts>> := [Some(map[journey := v])];
    var tail := Blank(n) + red;
    var past := red + tail;
    assert past[1..] == tail && red[1..] == [];
    BlankHasNone(journey, n, red);
    assert !Opened(journey, red) by { assert !LastRed(journey, Earlier([])); }
    if n < HISTORY_LIMIT - 1 {
      assert Earlier(tail) == tail;
    } else {
      var m := HISTORY_LIMIT - 1;
      EarlierBlank(n, red);
      BlankHasNone(journey, m, []);
      assert Blank(m) + [] == Blank(m);
    }
  }

  lemma EarlierBlank(n: nat, red: seq<Option<Verdicts>>)
    requires n >= HISTORY_LIMIT - 1 && |red| == 1
    ensures Earlier(Blank(n) + red) == Blank(HISTORY_LIMIT - 1)
  {
  }

  // --- What a listing tells ---

  /** The last step that these name, if one does. */
  ghost predicate IsLast(steps: seq<Option<int>>, step: Option<int>) {
    match step
    case Some(_) => exists k :: 0 <= k < |steps| && steps[k] == step && forall m :: k < m < |steps| ==> steps[m].None?
    case None => forall m :: 0 <= m < |steps| ==> steps[m].None?
  }

  lemma IsLastMore(steps: seq<Option<int>>, step: Option<int>, next: Option<int>)
    requires IsLast(steps, step)
    ensures IsLast(steps + [next], if next.Some? then next else step)
  {
    var more := steps + [next];
    assert more[|steps|] == next && forall m :: 0 <= m < |steps| ==> more[m] == steps[m];
    if next.None? && step.Some? {
      var k :| 0 <= k < |steps| && steps[k] == step && forall m :: k < m < |steps| ==> steps[m].None?;
      assert more[k] == step;
    }
  }

  /** The step an issue names: the one in the last of its comments that names one, else its body's. */
  lemma {:induction false} NamedIs(body: Option<int>, comments: seq<Option<int>>)
    ensures IsLast([body] + comments, LastNamed(body, comments))
  {
    hide IsLast;
    var n := |comments|;
    if n == 0 {
      assert IsLast([] + [body], LastNamed(body, comments)) by { NoneYet(); IsLastMore([], None, body); }
      assert [] + [body] == [body] + comments;
    } else {
      NamedIs(body, comments[..n - 1]);
      IsLastMore([body] + comments[..n - 1], LastNamed(body, comments[..n - 1]), comments[n - 1]);
      assert [body] + comments == [body] + comments[..n - 1] + [comments[n - 1]];
    }
  }

  lemma NoneYet()
    ensures IsLast([], None)
  {
  }

  /** Of a guide with several open issues, the newest one is read. */
  lemma {:induction false} FoundIsNewest(open: map<nat, Issue>, n: nat, guide: string)
    ensures guide in Found(open, n) <==> exists m :: m in open && m < n && open[m].guide == guide
    ensures guide in Found(open, n) ==>
              var o := Found(open, n)[guide];
              && o.number in open && o.number < n && open[o.number].guide == guide
              && o.step == Named(open[o.number])
              && forall m :: m in open && m < n && open[m].guide == guide ==> m <= o.number
  {
    hide Named;
    if n > 0 {
      FoundIsNewest(open, n - 1, guide);
    }
  }

  /** The titles that name a guide: the one its issue is opened with, with a line break after it or
      without. */
  lemma TitlesAre(title: string, guide: string)
    ensures GuideOf(title) == Some(guide) <==>
            && guide != "" && (forall c :: c in guide ==> c != '(' && c != ')' && !Text.IsSpace(c))
            && (title == TitleOf(guide) || title == TitleOf(guide) + "\n")
  {
    hide IsGuide, GuideOf, TitleOf, Text.IsSpace;
    GuideIs(guide);
    if GuideOf(title) == Some(guide) {
      TitleOfNamed(title, guide);
    }
    if IsGuide(guide) && (title == TitleOf(guide) || title == TitleOf(guide) + "\n") {
      NamedByTitle(title, guide);
    }
  }

  lemma NamedByTitle(title: string, guide: string)
    requires IsGuide(guide) && (title == TitleOf(guide) || title == TitleOf(guide) + "\n")
    ensures GuideOf(title) == Some(guide)
  {
    hide IsGuide;
    GuideOfTitle(guide);
    if title == TitleOf(guide) + "\n" {
      assert title[..|title| - 1] == TitleOf(guide);
      assert TITLE_END[|TITLE_END| - 1] == 'd' == TitleOf(guide)[|TitleOf(guide)| - 1];
    }
  }

  lemma TitleOfNamed(title: string, guide: string)
    requires GuideOf(title) == Some(guide)
    ensures IsGuide(guide) && (title == TitleOf(guide) || title == TitleOf(guide) + "\n")
  {
    hide IsGuide;
    var line := if title != "" && title[|title| - 1] == '\n' then title[..|title| - 1] else title;
    assert IsGuide(guide);
    InThree(line, guide);
    assert title == line || title == line + "\n";
  }

  lemma GuideIs(guide: string)
    ensures IsGuide(guide) <==>
            guide != "" && forall c :: c in guide ==> c != '(' && c != ')' && !Text.IsSpace(c)
  {
    assert forall k :: 0 <= k < |guide| ==> guide[k] in guide;
  }

  lemma InThree(line: string, guide: string)
    requires var from, to := |TITLE_START|, |line| - |TITLE_END|;
             from <= to && TITLE_START <= line && line[to..] == TITLE_END && line[from..to] == guide
    ensures line == TitleOf(guide)
  {
  }

  /** Only the workflow's own comments count, in their order. */
  lemma {:induction false} OwnStepsAre(a: seq<(bool, Option<int>)>, own: bool, step: Option<int>,
                                       b: seq<(bool, Option<int>)>)
    ensures OwnSteps(a + [(own, step)] + b) == OwnSteps(a) + (if own then [step] else []) + OwnSteps(b)
  {
    var all := a + [(own, step)] + b;
    if b == [] {
      assert all[..|all| - 1] == a;
    } else {
      OwnStepsAre(a, own, step, b[..|b| - 1]);
      assert all[..|all| - 1] == a + [(own, step)] + b[..|b| - 1];
    }
  }

  // --- Headers ---

  /** A run is refused only for a header that is not its verdict's own: of a failing journey always,
      of another one where its guide has an issue to close. */
  lemma HeadersAre(v: Verdict, issues: map<string, OpenIssue>)
    ensures Renders(v, issues) <==>
            match v.word
            case FAIL => v.template == "docs-guide-fail.tmpl"
            case PASS => v.guide in issues ==> v.template == "docs-guide-pass.tmpl"
            case PARTIAL => v.guide in issues ==> v.template == "docs-guide-partial.tmpl"
  {
  }
}
