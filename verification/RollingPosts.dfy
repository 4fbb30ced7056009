/** What the nights post: which issues are opened, kept, told more and closed, and what they say. */
module RollingPosts {
  import opened Wrappers
  import opened Ordering
  import opened RollingIssue
  import opened RollingFacts
  import opened RollingListing

  /** The open issues of a guide, by their numbers. */
  function OpenOf(s: State, guide: string): map<nat, Issue> {
    map n | n in s.open && s.open[n].guide == guide :: s.open[n]
  }

  // --- One post ---

  function Told(issue: Issue, step: int): Issue {
    issue.(comments := issue.comments + [Some(step)])
  }

  /** What one item does to its own guide's issues; a new one gets a number not used before. */
  ghost predicate Does(item: Item, before: map<nat, Issue>, after: map<nat, Issue>, next: nat) {
    match item
    case Open(guide, step) =>
      exists n: nat :: n in after && n >= next && after == before[n := Issue(guide, Some(step), [])]
    case Comment(_, n, step) => n in before && after == before[n := Told(before[n], step)]
    case Close(_, n) => after == before - {n}
    case Nothing(_) => after == before
  }

  lemma PostDoes(s: State, item: Item)
    requires Sound(s) && Fits(s, item)
    ensures Does(item, OpenOf(s, item.guide), OpenOf(Post(s, item), item.guide), s.next)
  {
    hide Found, Named, IssueOf;
    IssueFrom(s, item.guide);
    var before, after := OpenOf(s, item.guide), OpenOf(Post(s, item), item.guide);
    match item
    case Open(guide, step) => assert s.next in after && after == before[s.next := Issue(guide, Some(step), [])];
    case Comment(_, n, step) => assert after == before[n := Told(before[n], step)];
    case Close(_, n) => assert after == before - {n};
    case Nothing(_) =>
  }

  lemma PostLeavesOthers(s: State, item: Item, guide: string)
    requires Sound(s) && Fits(s, item) && guide != item.guide
    ensures OpenOf(Post(s, item), guide) == OpenOf(s, guide)
  {
    hide Found, Named, IssueOf;
    IssueFrom(s, item.guide);
  }

  lemma NextGrows(s: State, item: Item)
    ensures Post(s, item).next >= s.next
  {
  }

  lemma {:induction false} NextGrowsAll(s: State, items: seq<Item>)
    ensures PostAll(s, items).next >= s.next
  {
    hide Post;
    if items != [] {
      NextGrowsAll(s, items[..|items| - 1]);
      NextGrows(PostAll(s, items[..|items| - 1]), items[|items| - 1]);
    }
  }

  lemma DoesLater(item: Item, before: map<nat, Issue>, after: map<nat, Issue>, next: nat, later: nat)
    requires Does(item, before, after, later) && next <= later
    ensures Does(item, before, after, next)
  {
  }

  // --- One night's posts ---

  /** The items of one run, for guides of their own: a guide's issues change by its own item. */
  lemma {:induction false} PostsDo(s: State, items: seq<Item>, k: nat, guide: string, p: nat)
    requires Sound(s) && k <= |items|
    requires forall i :: 0 <= i < |items| ==> Fits(s, items[i])
    requires forall i, j :: 0 <= i < j < |items| ==> items[i].guide != items[j].guide
    requires forall i :: 0 <= i < |items| && items[i].guide == guide ==> i == p
    ensures var t := PostAll(s, items[..k]);
            if p < k && items[p].guide == guide then Does(items[p], OpenOf(s, guide), OpenOf(t, guide), s.next)
            else OpenOf(t, guide) == OpenOf(s, guide)
    decreases k
  {
    hide Sound, IssueOf, Post, Does, OpenOf, Leaves;
    if k > 0 {
      var item, t := items[k - 1], PostAll(s, items[..k - 1]);
      assert items[..k][..k - 1] == items[..k - 1];
      PostUpTo(s, items, k - 1, item.guide, k - 1);
      PostsDo(s, items, k - 1, guide, p);
      if guide == item.guide {
        PostDoes(t, item);
        NextGrowsAll(s, items[..k - 1]);
        DoesLater(item, OpenOf(t, guide), OpenOf(Post(t, item), guide), s.next, t.next);
      } else {
        PostLeavesOthers(t, item, guide);
      }
    }
  }

  /** What a night makes of a journey's issues. */
  ghost predicate Makes(journey: string, guide: string, s: State, tonight: Option<Verdicts>, before: map<nat, Issue>,
                        after: map<nat, Issue>) {
    if tonight.None? || journey !in tonight.value then after == before
    else
      var v := tonight.value[journey];
      if v.word != FAIL then after == map[]
      else if before != map[] then
        exists n :: n in before && before.Keys == {n} && after.Keys == {n}
          && after[n] == if Named(before[n]) == Some(v.step) then before[n] else Told(before[n], v.step)
      else if LastRed(journey, Earlier(s.past)) then
        exists n: nat :: n in after && n >= s.next && after == map[n := Issue(guide, Some(v.step), [])]
      else after == map[]
  }

  lemma OneOpen(s: State, guide: string)
    requires Sound(s)
    ensures match IssueOf(s, guide)
            case None => OpenOf(s, guide) == map[]
            case Some(o) => OpenOf(s, guide).Keys == {o.number} && Named(OpenOf(s, guide)[o.number]) == o.step
  {
    hide Found, Named, IssueOf;
    IssueFrom(s, guide);
    var before := OpenOf(s, guide);
    match IssueOf(s, guide)
    case None => assert before == map[];
    case Some(o) =>
      assert o.number in before;
      forall n | n in before ensures n == o.number {
      }
  }

  /** A journey's item makes of its issues what the night must. */
  lemma ItemMakes(s: State, current: Verdicts, guideOf: string -> string, journey: string, after: map<nat, Issue>)
    requires Sound(s) && Fair(Some(current), guideOf) && journey in current
    requires var item := ItemOf(journey, current[journey], Earlier(s.past), Found(s.open, s.next));
             item.guide == guideOf(journey) && Does(item, OpenOf(s, guideOf(journey)), after, s.next)
    ensures Makes(journey, guideOf(journey), s, Some(current), OpenOf(s, guideOf(journey)), after)
  {
    hide Present, Earlier, OpenOf, Named, Sound, Injective, LastRed, LeadingFails;
    var guide, v := guideOf(journey), current[journey];
    assert v.guide == guide;
    OneOpen(s, guide);
    RedCounts(journey, Earlier(s.past));
    var before := OpenOf(s, guide);
    if v.word == FAIL && IssueOf(s, guide).None? {
      NoKeys(before, after, guide, v.step);
    } else if IssueOf(s, guide).Some? {
      var n := IssueOf(s, guide).value.number;
      assert n in before && before.Keys == {n};
      assert (before - {n}).Keys == {};
      assert forall m: map<nat, Issue> :: m.Keys == {} ==> m == map[];
    }
  }

  lemma NoKeys(before: map<nat, Issue>, after: map<nat, Issue>, guide: string, step: int)
    requires before == map[]
    ensures forall n: nat :: before[n := Issue(guide, Some(step), [])] == map[n := Issue(guide, Some(step), [])]
  {
  }

  lemma RedCounts(journey: string, history: seq<Option<Verdicts>>)
    ensures LastRed(journey, history) <==> LeadingFails(Present(journey, history)) >= 1
  {
    hide Present;
  }

  /** Every night, whatever it brings: a failing guide's open issue keeps its number and is told the
      step only when it names another one; an issue is opened with the step after a failure; any
      other verdict leaves none open; and without a verdict nothing changes. */
  lemma NightMakes(s: State, tonight: Option<Verdicts>, guideOf: string -> string, journey: string)
    requires Sound(s) && Injective(guideOf) && Fair(tonight, guideOf)
    ensures var guide := guideOf(journey);
            Makes(journey, guide, s, tonight, OpenOf(s, guide), OpenOf(After(s, tonight), guide))
  {
    hide Sound, Fits, Post, PostAll, Items, Found, Earlier, Present, StrictlySorted, Injective, Does, Makes, OpenOf;
    hide After, ItemOf, Fair;
    AfterIs(s, tonight, guideOf);
    if tonight.Some? {
      var current, history := tonight.value, Earlier(s.past);
      var order, items := Sorted(current.Keys), Items(current, history, Found(s.open, s.next));
      var guide := guideOf(journey);
      forall i: nat | i < |items|
        ensures items[i].guide == guideOf(order[i]) && Fits(s, items[i])
        ensures forall j :: i < j < |order| ==> guideOf(order[i]) != guideOf(order[j])
      {
        ItemFits(s, current, history, guideOf, i);
        GuidesDiffer(order, guideOf, i);
      }
      var p := PlaceOf(order, journey, guideOf, current);
      PostsDo(s, items, |items|, guide, p);
      assert items[..|items|] == items;
      SameOpen(s, PostAll(s, items), tonight, guide);
      if p < |order| {
        ItemFits(s, current, history, guideOf, p);
        ItemMakes(s, current, guideOf, journey, OpenOf(PostAll(s, items), guide));
      } else {
        NothingMade(journey, guide, s, tonight);
      }
    } else {
      SameOpen(s, s, tonight, guideOf(journey));
      NothingMade(journey, guideOf(journey), s, tonight);
    }
  }

  lemma AfterIs(s: State, tonight: Option<Verdicts>, guideOf: string -> string)
    requires Fair(tonight, guideOf)
    ensures tonight.Some? ==>
              After(s, tonight)
              == PostAll(s, Items(tonight.value, Earlier(s.past), Found(s.open, s.next))).(past := [tonight] + s.past)
    ensures tonight.None? ==> After(s, tonight) == s.(past := [tonight] + s.past)
  {
    hide Found, Items, Earlier, PostAll;
    if tonight.Some? {
      assert forall j :: j in tonight.value ==> Renders(tonight.value[j], Found(s.open, s.next));
    }
  }

  lemma SameOpen(s: State, t: State, tonight: Option<Verdicts>, guide: string)
    ensures OpenOf(t.(past := [tonight] + s.past), guide) == OpenOf(t, guide)
  {
  }

  lemma NothingMade(journey: string, guide: string, s: State, tonight: Option<Verdicts>)
    requires tonight.None? || journey !in tonight.value
    ensures Makes(journey, guide, s, tonight, OpenOf(s, guide), OpenOf(s, guide))
  {
  }

  // --- Nights that post nothing ---

  /** The journey calls for no post: it fails at the step its issue names, or without an issue and
      a failure before it, or it does not fail and has no issue. */
  predicate IsQuiet(s: State, v: Verdict, journey: string, guide: string) {
    match IssueOf(s, guide)
    case Some(o) => v.word == FAIL && o.step == Some(v.step)
    case None => v.word != FAIL || !LastRed(journey, Earlier(s.past))
  }

  lemma QuietItem(s: State, current: Verdicts, guideOf: string -> string, i: nat)
    requires Fair(Some(current), guideOf) && i < |Sorted(current.Keys)|
    ensures var j := Sorted(current.Keys)[i];
            && j in current
            && (Items(current, Earlier(s.past), Found(s.open, s.next))[i].Nothing?
                <==> IsQuiet(s, current[j], j, guideOf(j)))
  {
    hide Found, Present, LeadingFails, StrictlySorted, Sorted, LastRed, Earlier;
    ItemFits(s, current, Earlier(s.past), guideOf, i);
    RedCounts(Sorted(current.Keys)[i], Earlier(s.past));
  }

  lemma {:induction false} NothingPosted(s: State, items: seq<Item>)
    requires forall i :: 0 <= i < |items| ==> items[i].Nothing?
    ensures PostAll(s, items) == s
  {
    if items != [] {
      NothingPosted(s, items[..|items| - 1]);
    }
  }

  /** A night posts nothing exactly when every journey of it is quiet, and then leaves the issues and
      the next number as they are. */
  lemma QuietNight(s: State, current: Verdicts, guideOf: string -> string)
    requires Fair(Some(current), guideOf)
    ensures var items := Items(current, Earlier(s.past), Found(s.open, s.next));
            && ((forall i :: 0 <= i < |items| ==> items[i].Nothing?)
                <==> forall j :: j in current ==> IsQuiet(s, current[j], j, guideOf(j)))
            && ((forall j :: j in current ==> IsQuiet(s, current[j], j, guideOf(j)))
                ==> After(s, Some(current)) == s.(past := [Some(current)] + s.past))
  {
    hide Found, Items, StrictlySorted, Sorted, Earlier, IsQuiet, PostAll, Renders;
    var order, items := Sorted(current.Keys), Items(current, Earlier(s.past), Found(s.open, s.next));
    forall i | 0 <= i < |items|
      ensures order[i] in current && (items[i].Nothing? <==> IsQuiet(s, current[order[i]], order[i], guideOf(order[i])))
    {
      QuietItem(s, current, guideOf, i);
    }
    forall j | j in current && forall i :: 0 <= i < |items| ==> items[i].Nothing?
      ensures IsQuiet(s, current[j], j, guideOf(j))
    {
      assert j in order;
      var i :| 0 <= i < |order| && order[i] == j;
      assert items[i].Nothing?;
    }
    if forall j :: j in current ==> IsQuiet(s, current[j], j, guideOf(j)) {
      NothingPosted(s, items);
      NothingAfter(s, current, items);
    }
  }

  lemma NothingAfter(s: State, current: Verdicts, items: seq<Item>)
    requires items == Items(current, Earlier(s.past), Found(s.open, s.next)) && PostAll(s, items) == s
    ensures After(s, Some(current)) == s.(past := [Some(current)] + s.past)
  {
    hide Found, Items, Earlier, PostAll, Renders;
  }

  // --- Every run ---

  /** The failing steps told of a journey since its issue was opened, the first one first, by the
      runs alone (newest first): each but those that repeat the one before. */
  function Chronicle(journey: string, past: seq<Option<Verdicts>>): seq<int> {
    if past == [] then []
    else
      var rest := Chronicle(journey, past[1..]);
      if past[0].None? || journey !in past[0].value then rest
      else
        var v := past[0].value[journey];
        if v.word != FAIL then []
        else if rest != [] then (if rest[|rest| - 1] == v.step then rest else rest + [v.step])
        else if LastRed(journey, Earlier(past[1..])) then [v.step] else []
  }

  /** The one issue of a guide that has told these steps, or none when there are none to tell. */
  ghost predicate Tells(open: map<nat, Issue>, guide: string, steps: seq<int>) {
    if steps == [] then open == map[]
    else exists n :: n in open && open.Keys == {n} && open[n] == IssueTelling(guide, steps)
  }

  function IssueTelling(guide: string, steps: seq<int>): Issue
    requires steps != []
  {
    Issue(guide, Some(steps[0]), seq(|steps| - 1, k requires 0 <= k < |steps| - 1 => Some(steps[k + 1])))
  }

  lemma {:induction false} NamesLast(body: int, comments: seq<int>)
    ensures LastNamed(Some(body), seq(|comments|, k requires 0 <= k < |comments| => Some(comments[k])))
            == Some(if comments == [] then body else comments[|comments| - 1])
  {
  }

  lemma TellingNames(guide: string, steps: seq<int>)
    requires steps != []
    ensures Named(IssueTelling(guide, steps)) == Some(steps[|steps| - 1])
  {
    NamesLast(steps[0], steps[1..]);
    assert IssueTelling(guide, steps).comments
        == seq(|steps[1..]|, k requires 0 <= k < |steps[1..]| => Some(steps[1..][k]));
  }

  lemma TellsMore(guide: string, steps: seq<int>, step: int)
    requires steps != []
    ensures Told(IssueTelling(guide, steps), step) == IssueTelling(guide, steps + [step])
  {
  }

  /** A night's posts tell what the runs with it tell. */
  lemma NightTells(journey: string, guide: string, s: State, tonight: Option<Verdicts>, before: map<nat, Issue>,
                   after: map<nat, Issue>)
    requires Tells(before, guide, Chronicle(journey, s.past)) && Makes(journey, guide, s, tonight, before, after)
    ensures Tells(after, guide, Chronicle(journey, [tonight] + s.past))
  {
    hide Earlier, LastRed, Named, IssueTelling, Told;
    var past, steps := [tonight] + s.past, Chronicle(journey, s.past);
    assert past[1..] == s.past;
    if tonight.Some? && journey in tonight.value && tonight.value[journey].word == FAIL {
      var step := tonight.value[journey].step;
      if steps != [] {
        var n :| n in before && before.Keys == {n} && before[n] == IssueTelling(guide, steps);
        assert before != map[];
        TellingNames(guide, steps);
        TellsMore(guide, steps, step);
        assert n in after;
      } else {
        TellsFirst(guide, step);
      }
    }
  }

  lemma TellsFirst(guide: string, step: int)
    ensures IssueTelling(guide, [step]) == Issue(guide, Some(step), [])
  {
  }

  /** After every sequence of nights each guide has the one issue that its runs call for, which was
      opened with the first of the steps told and has a comment for each later one. */
  lemma {:induction false} RunTells(nights: seq<Option<Verdicts>>, guideOf: string -> string, journey: string)
    requires Injective(guideOf) && forall k :: 0 <= k < |nights| ==> Fair(nights[k], guideOf)
    ensures var s := RunOf(nights); Tells(OpenOf(s, guideOf(journey)), guideOf(journey), Chronicle(journey, s.past))
  {
    hide Injective, Fair, After, Rolled, IssueOf, Agrees, Sound, Makes, Tells, OpenOf, Chronicle;
    if nights == [] {
      NothingTold(guideOf(journey), journey);
    } else {
      var earlier, tonight := nights[..|nights| - 1], nights[|nights| - 1];
      var s, guide := RunOf(earlier), guideOf(journey);
      RunTells(earlier, guideOf, journey);
      RunAgrees(earlier, guideOf, journey);
      NightIsRolled(s, tonight, guideOf, journey);
      NightMakes(s, tonight, guideOf, journey);
      NightTells(journey, guide, s, tonight, OpenOf(s, guide), OpenOf(After(s, tonight), guide));
    }
  }

  lemma NothingTold(guide: string, journey: string)
    ensures Tells(OpenOf(START, guide), guide, Chronicle(journey, START.past))
  {
    assert OpenOf(START, guide) == map[];
  }

  /** The same among other people's issues and comments. */
  lemma {:induction false} AmongTells(nights: seq<ListedRun>, guideOf: string -> string, journey: string)
    requires Injective(guideOf) && Possible(nights) && forall j :: IsGuide(guideOf(j))
    requires forall k :: 0 <= k < |nights| ==> Fair(nights[k].tonight, guideOf)
    ensures var s := RunAmong(nights); Tells(OpenOf(s, guideOf(journey)), guideOf(journey), Chronicle(journey, s.past))
  {
    hide Injective, Fair, After, Rolled, IssueOf, Agrees, Sound, Makes, Tells, OpenOf, Chronicle, Beside, IsGuide;
    hide OfGuides, AfterListed;
    if nights == [] {
      NothingTold(guideOf(journey), journey);
    } else {
      var earlier, night := nights[..|nights| - 1], nights[|nights| - 1];
      var s, guide := RunAmong(earlier), guideOf(journey);
      AmongTells(earlier, guideOf, journey);
      AmongAgrees(earlier, guideOf, journey);
      ReadsItsOwn(s, night);
      var later := s.(next := night.next);
      LaterIsSame(s, night, guide);
      NightIsRolled(later, night.tonight, guideOf, journey);
      NightMakes(later, night.tonight, guideOf, journey);
      NightTells(journey, guide, later, night.tonight, OpenOf(later, guide),
                 OpenOf(After(later, night.tonight), guide));
    }
  }

  lemma LaterIsSame(s: State, night: ListedRun, guide: string)
    requires Beside(s, night) && OfGuides(s.open) && Sound(s)
    ensures var later := s.(next := night.next);
            && Sound(later) && OpenOf(later, guide) == OpenOf(s, guide)
            && AfterListed(s, night) == After(later, night.tonight)
  {
    hide Found, AfterReading, Ours, OfGuides, Shows;
    ReadsItsOwn(s, night);
    LaterNumber(s, night.next, guide);
  }

  predicate NoneRepeats(steps: seq<int>) {
    forall k :: 0 < k < |steps| ==> steps[k] != steps[k - 1]
  }

  /** No step is told twice in a row. */
  lemma {:induction false} NeverTwice(journey: string, past: seq<Option<Verdicts>>)
    ensures NoneRepeats(Chronicle(journey, past))
  {
    hide LastRed, Earlier;
    if past != [] {
      NeverTwice(journey, past[1..]);
    }
  }
}
