/** A registry without a problem is its page's units, each as often as it occurs. */
module RegistryFacts {
  import opened Wrappers
  import opened Registry

  /** An entry nothing is wrong with by itself. */
  predicate Acceptable(e: Raw, bad: (Raw, string) -> bool) {
    && e.Entry? && !e.unknownKeys && GoodCount(e.count) && ShapeOf(e).None?
    && e.targets.Some? && forall t :: t in e.targets.value ==> !bad(e, t)
  }

  /** What the entries stand for: each text as often as its count says. */
  function Bag(raw: seq<Raw>): multiset<string>
    requires forall k :: 0 <= k < |raw| ==> raw[k].Entry? && GoodCount(raw[k].count)
  {
    if raw == [] then multiset{}
    else Bag(raw[..|raw| - 1]) + Copies(raw[|raw| - 1].text, Value(raw[|raw| - 1].count))
  }

  function Copies(text: string, n: nat): multiset<string> {
    multiset{}[text := n]
  }

  predicate AllAcceptable(raw: seq<Raw>, bad: (Raw, string) -> bool) {
    forall k :: 0 <= k < |raw| ==> Acceptable(raw[k], bad)
  }

  predicate NoneTwice(raw: seq<Raw>) {
    forall j, k :: 0 <= j < k < |raw| && raw[j].Entry? && raw[k].Entry? ==> raw[j].text != raw[k].text
  }

  lemma {:induction false} BadTargetsExact(k: nat, e: Raw, bad: (Raw, string) -> bool, targets: seq<string>)
    ensures BadTargets(k, e, bad, targets) == [] <==> forall t :: t in targets ==> !bad(e, t)
  {
    if targets != [] {
      var n := |targets| - 1;
      BadTargetsExact(k, e, bad, targets[..n]);
      assert targets == targets[..n] + [targets[n]];
    }
  }

  /** One more entry: nothing to say of it exactly when it is acceptable and new. */
  lemma ReadIsExact(r: Reading, k: nat, e: Raw, bad: (Raw, string) -> bool)
    ensures var next := ReadEntry(r, k, e, bad);
            && r.problems <= next.problems
            && (next.problems == r.problems <==> Acceptable(e, bad) && e.text !in r.registered)
            && (next.problems == r.problems ==>
                  next == Reading(r.registered[e.text := Value(e.count)], r.names + [e.text],
                                   r.entries + [e], r.problems))
  {
    hide ShapeOf;
    if e.Entry? && e.targets.Some? {
      BadTargetsExact(k, e, bad, e.targets.value);
    }
    if e.Entry? && ShapeOf(e).None? {
      ShapedHasTargets(e);
    }
  }

  /** The reading of entries that are all acceptable and none twice. */
  ghost predicate Clean(r: Reading, raw: seq<Raw>) {
    && r.entries == raw && |r.names| == |raw|
    && (forall k :: 0 <= k < |raw| ==> raw[k].Entry? && raw[k].text == r.names[k])
    && (forall t :: t in r.registered <==> t in r.names)
  }

  lemma {:induction false} EntriesAreExact(raw: seq<Raw>, bad: (Raw, string) -> bool)
    ensures var r := ReadEntries(raw, bad);
            && (r.problems == [] <==> AllAcceptable(raw, bad) && NoneTwice(raw))
            && (r.problems == [] ==> Clean(r, raw))
  {
    hide ReadEntry, Acceptable;
    if raw != [] {
      var n := |raw| - 1;
      var before := ReadEntries(raw[..n], bad);
      EntriesAreExact(raw[..n], bad);
      ReadIsExact(before, n, raw[n], bad);
      AcceptableSplit(raw, bad, before);
      if Acceptable(raw[n], bad) {
        assert raw == raw[..n] + [raw[n]];
        AcceptableIsEntry(raw[n], bad);
      }
    }
  }

  lemma AcceptableIsEntry(e: Raw, bad: (Raw, string) -> bool)
    requires Acceptable(e, bad)
    ensures e.Entry? && GoodCount(e.count)
  {
  }

  lemma AcceptableSplit(raw: seq<Raw>, bad: (Raw, string) -> bool, before: Reading)
    requires raw != []
    ensures var n := |raw| - 1;
            Clean(before, raw[..n]) ==>
              (AllAcceptable(raw, bad) && NoneTwice(raw)
               <==> AllAcceptable(raw[..n], bad) && NoneTwice(raw[..n])
                    && Acceptable(raw[n], bad) && raw[n].text !in before.registered)
    ensures AllAcceptable(raw, bad) && NoneTwice(raw)
            ==> AllAcceptable(raw[..|raw| - 1], bad) && NoneTwice(raw[..|raw| - 1])
  {
    hide Acceptable;
    var n := |raw| - 1;
    if Acceptable(raw[n], bad) {
      AcceptableIsEntry(raw[n], bad);
    }
  }

  // --- Counts ---

  lemma {:induction false} BagIs(raw: seq<Raw>, bad: (Raw, string) -> bool, t: string)
    requires AllAcceptable(raw, bad) && NoneTwice(raw)
    ensures var registered := ReadEntries(raw, bad).registered;
            Bag(raw)[t] == (if t in registered then registered[t] else 0) && (t in registered ==> registered[t] > 0)
  {
    hide ReadEntry, ShapeOf;
    if raw != [] {
      var n := |raw| - 1;
      var before := ReadEntries(raw[..n], bad);
      EntriesAreExact(raw[..n], bad);
      EntriesAreExact(raw, bad);
      BagIs(raw[..n], bad, t);
      ReadIsExact(before, n, raw[n], bad);
      NewName(raw, bad);
    }
  }

  lemma NewName(raw: seq<Raw>, bad: (Raw, string) -> bool)
    requires raw != [] && AllAcceptable(raw, bad) && NoneTwice(raw)
    ensures Acceptable(raw[|raw| - 1], bad) && raw[|raw| - 1].text !in ReadEntries(raw[..|raw| - 1], bad).registered
  {
    hide Acceptable, ReadEntries;
    EntriesAreExact(raw[..|raw| - 1], bad);
    AcceptableSplit(raw, bad, ReadEntries(raw[..|raw| - 1], bad));
  }

  lemma {:induction false} OfPageIsExact(page: seq<Unit>, registered: map<string, int>, texts: seq<string>)
    requires forall t :: t in texts ==> t in Texts(page)
    ensures OfPage(page, registered, texts) == []
            <==> forall t :: t in texts ==> t in registered && registered[t] == multiset(Texts(page))[t]
  {
    hide Texts, FirstLine;
    if texts != [] {
      var n := |texts| - 1;
      OfPageIsExact(page, registered, texts[..n]);
      assert texts == texts[..n] + [texts[n]];
    }
  }

  lemma {:induction false} OfNamesIsExact(page: seq<Unit>, names: seq<string>)
    ensures OfNames(page, names) == [] <==> forall t :: t in names ==> t in Texts(page)
  {
    hide Texts;
    if names != [] {
      var n := |names| - 1;
      OfNamesIsExact(page, names[..n]);
      assert names == names[..n] + [names[n]];
    }
  }

  lemma AreEntries(raw: seq<Raw>, bad: (Raw, string) -> bool)
    requires AllAcceptable(raw, bad)
    ensures forall k :: 0 <= k < |raw| ==> raw[k].Entry? && GoodCount(raw[k].count)
  {
    hide ShapeOf;
  }

  /** No problem exactly when every entry is acceptable, none is listed twice, and the entries
      with their counts are the page's units, as multisets. */
  lemma RegistryIsExact(raw: seq<Raw>, page: seq<Unit>, bad: (Raw, string) -> bool)
    ensures RegistryProblems(raw, page, bad) == []
            <==> AllAcceptable(raw, bad) && NoneTwice(raw) && Bag(raw) == multiset(Texts(page))
  {
    hide ReadEntries, OfPage, OfNames, Texts, Distinct, Acceptable, NoneTwice, Bag, FirstLine;
    var r, texts := ReadEntries(raw, bad), Texts(page);
    EntriesAreExact(raw, bad);
    OfPageIsExact(page, r.registered, Distinct(texts));
    OfNamesIsExact(page, r.names);
    if AllAcceptable(raw, bad) && NoneTwice(raw) {
      AreEntries(raw, bad);
      forall t
        ensures Bag(raw)[t] == (if t in r.registered then r.registered[t] else 0)
                && (t in r.registered ==> r.registered[t] > 0)
      {
        BagIs(raw, bad, t);
      }
      SameCounts(r.registered, Bag(raw), texts);
    }
  }

  /** Numbers by text agree with a list's counts exactly when the bags are the same. */
  lemma SameCounts(registered: map<string, int>, bag: multiset<string>, texts: seq<string>)
    requires forall t :: bag[t] == (if t in registered then registered[t] else 0)
                        && (t in registered ==> registered[t] > 0)
    ensures bag == multiset(texts)
            <==> (forall t :: t in texts ==> t in registered && registered[t] == multiset(texts)[t])
                 && forall t :: t in registered ==> t in texts
  {
    if (forall t :: t in texts ==> t in registered && registered[t] == multiset(texts)[t])
       && forall t :: t in registered ==> t in texts {
      forall t ensures bag[t] == multiset(texts)[t] {
        assert t in texts <==> t in multiset(texts);
      }
    }
    if bag == multiset(texts) {
      forall t | t in texts ensures t in registered && registered[t] == multiset(texts)[t] {
        assert t in multiset(texts);
      }
      forall t | t in registered ensures t in texts {
        assert t in bag;
      }
    }
  }

  /** A whole file has no problem exactly when it parses with no unknown key, names its own
      document, the document is there and splits, and its units are the page's. */
  lemma FileIsExact(file: File, path: string, page: Page, bad: (Raw, string) -> bool)
    ensures FileProblems(file, path, page, bad) == []
            <==> && file.Parsed? && !file.unknownKeys && file.document == Some(path)
                 && page.Units? && file.units.Some?
                 && AllAcceptable(file.units.value, bad) && NoneTwice(file.units.value)
                 && Bag(file.units.value) == multiset(Texts(page.units))
  {
    hide RegistryProblems, AllAcceptable, NoneTwice, Bag, Texts;
    if file.Parsed? && page.Units? && file.units.Some? {
      var found := RegistryProblems(file.units.value, page.units, bad);
      RegistryIsExact(file.units.value, page.units, bad);
      assert |Wrap(found)| == |found|;
    }
  }
}
