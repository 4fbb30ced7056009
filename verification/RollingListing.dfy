/** The rolling issues among other people's issues and comments. */
module RollingListing {
  import opened Wrappers
  import opened Ordering
  import opened RollingIssue
  import opened RollingFacts

  /** An issue of the workflow as it is listed: opened by it under its guide's title, and with
      other people's comments anywhere between its own. */
  predicate Shows(l: Listing, issue: Issue) {
    l.ours && l.title == TitleOf(issue.guide) && l.body == issue.body && OwnSteps(l.comments) == issue.comments
  }

  /** The listing has the workflow's issues and any other ones, none of which is of the
      workflow's account under such a title; others may have opened issues since. */
  ghost predicate Beside(s: State, night: ListedRun) {
    && s.next <= night.next
    && (forall n :: n in s.open ==> n in night.listed && Shows(night.listed[n], s.open[n]))
    && (forall n :: n in night.listed && IsOurs(night.listed[n]) ==> n in s.open)
  }

  predicate OfGuides(open: map<nat, Issue>) {
    forall n :: n in open ==> IsGuide(open[n].guide)
  }

  /** Whatever else is listed, what is read are the workflow's open issues. */
  lemma ReadsItsOwn(s: State, night: ListedRun)
    requires Beside(s, night) && OfGuides(s.open)
    ensures Ours(night.listed) == s.open
  {
    hide GuideOf, TitleOf, IsGuide, OwnSteps;
    forall n | n in s.open
      ensures IsOurs(night.listed[n]) && GuideOf(night.listed[n].title) == Some(s.open[n].guide)
    {
      GuideOfTitle(s.open[n].guide);
    }
  }

  // --- One night ---

  lemma {:induction false} PostsOfGuides(s: State, items: seq<Item>)
    requires OfGuides(s.open) && forall i :: 0 <= i < |items| ==> IsGuide(items[i].guide)
    ensures OfGuides(PostAll(s, items).open)
  {
    hide IsGuide;
    if items != [] {
      PostsOfGuides(s, items[..|items| - 1]);
    }
  }

  lemma NightOfGuides(s: State, tonight: Option<Verdicts>, guideOf: string -> string)
    requires OfGuides(s.open) && Fair(tonight, guideOf) && forall j :: IsGuide(guideOf(j))
    ensures OfGuides(After(s, tonight).open)
  {
    hide IsGuide, Items, Found, PostAll, Earlier, Renders, OfGuides, Fits;
    if tonight.Some? {
      var items := Items(tonight.value, Earlier(s.past), Found(s.open, s.next));
      forall i | 0 <= i < |items|
        ensures IsGuide(items[i].guide)
      {
        ItemFits(s, tonight.value, Earlier(s.past), guideOf, i);
      }
      PostsOfGuides(s, items);
    }
  }

  /** Other people's issues take numbers, and nothing else. */
  lemma LaterNumber(s: State, next: nat, guide: string)
    requires Sound(s) && s.next <= next
    ensures Sound(s.(next := next)) && IssueOf(s.(next := next), guide) == IssueOf(s, guide)
  {
    hide Unique, IssueOf;
    SameIssue(s, s.(next := next), guide);
  }

  // --- Every run ---

  function RunAmong(nights: seq<ListedRun>): State {
    if nights == [] then START else AfterListed(RunAmong(nights[..|nights| - 1]), nights[|nights| - 1])
  }

  /** Each night's listing is one the nights before it can have left. */
  ghost predicate Possible(nights: seq<ListedRun>) {
    nights != [] ==>
      && Possible(nights[..|nights| - 1])
      && Beside(RunAmong(nights[..|nights| - 1]), nights[|nights| - 1])
  }

  lemma {:induction false} AmongAgrees(nights: seq<ListedRun>, guideOf: string -> string, journey: string)
    requires Injective(guideOf) && Possible(nights) && forall j :: IsGuide(guideOf(j))
    requires forall k :: 0 <= k < |nights| ==> Fair(nights[k].tonight, guideOf)
    ensures var s := RunAmong(nights);
            && Sound(s) && OfGuides(s.open) && Agrees(journey, s.past, IssueOf(s, guideOf(journey)))
            && |s.past| == |nights| && forall k :: 0 <= k < |nights| ==> s.past[k] == nights[|nights| - 1 - k].tonight
  {
    hide Injective, Fair, After, AfterReading, Rolled, IssueOf, Agrees, Sound, OfGuides, Beside, IsGuide, Found, Ours;
    if nights == [] {
      NothingOpen(guideOf, journey);
      assert OfGuides(START.open) by { NoGuides(); }
    } else {
      var earlier, night := nights[..|nights| - 1], nights[|nights| - 1];
      var s := RunAmong(earlier);
      AmongAgrees(earlier, guideOf, journey);
      NightAmong(s, night, guideOf, journey);
    }
  }

  lemma NoGuides()
    ensures OfGuides(START.open)
  {
  }

  /** One night of such a run. */
  lemma NightAmong(s: State, night: ListedRun, guideOf: string -> string, journey: string)
    requires Injective(guideOf) && Fair(night.tonight, guideOf) && forall j :: IsGuide(guideOf(j))
    requires Sound(s) && OfGuides(s.open) && Agrees(journey, s.past, IssueOf(s, guideOf(journey))) && Beside(s, night)
    ensures var t := AfterListed(s, night);
            && Sound(t) && OfGuides(t.open) && t.past == [night.tonight] + s.past
            && Agrees(journey, t.past, IssueOf(t, guideOf(journey)))
  {
    hide Injective, Fair, AfterReading, Rolled, IssueOf, Agrees, Sound, OfGuides, IsGuide, Found, Ours, Shows;
    ReadsItsOwn(s, night);
    var guide, later := guideOf(journey), s.(next := night.next);
    LaterNumber(s, night.next, guide);
    assert AfterListed(s, night) == After(later, night.tonight);
    NightIsRolled(later, night.tonight, guideOf, journey);
    NightOfGuides(later, night.tonight, guideOf);
    AgreesStill(journey, later, night.tonight, IssueOf(later, guide), IssueOf(After(later, night.tonight), guide));
  }

  /** Every run of nights with any issues and comments of other people among the workflow's own
      keeps what a run by itself keeps. */
  lemma EveryRunAmong(nights: seq<ListedRun>, guideOf: string -> string, journey: string)
    requires Injective(guideOf) && Possible(nights) && forall j :: IsGuide(guideOf(j))
    requires forall k :: 0 <= k < |nights| ==> Fair(nights[k].tonight, guideOf)
    ensures var s := RunAmong(nights);
            && Rolls(s, guideOf(journey), journey)
            && |s.past| == |nights| && forall k :: 0 <= k < |nights| ==> s.past[k] == nights[|nights| - 1 - k].tonight
  {
    hide Injective, Fair, RunAmong, IssueOf, Agrees, Rolls, Sound, Possible, IsGuide, OfGuides;
    AmongAgrees(nights, guideOf, journey);
    AgreesRolls(RunAmong(nights), guideOf(journey), journey);
  }
}
