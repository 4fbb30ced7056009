/** Which problems a registry's check reports, each by what it means of the entries and the page. */
module RegistryReports {
  import opened Wrappers
  import opened Registry
  import Text

  // --- Entries ---

  predicate HasCount(e: Raw) {
    e.Entry? && match e.count case One => true case Times(n) => 2 <= n <= 999 case NotANumber => false
  }

  predicate Registers(e: Raw, text: string) {
    HasCount(e) && e.text == text
  }

  /** Entry `k` is the first with its text and a count that can be. */
  predicate Lists(raw: seq<Raw>, k: nat, text: string) {
    k < |raw| && Registers(raw[k], text) && forall j: nat :: j < k ==> !Registers(raw[j], text)
  }

  ghost predicate IsListed(raw: seq<Raw>, text: string) {
    exists k: nat :: Lists(raw, k, text)
  }

  /** The number the first such entry gives. */
  function NumberOf(e: Raw): int
    requires e.Entry?
  {
    if e.count.Times? then e.count.n else 1
  }

  /** The families of targets that stand alone. */
  predicate IsAlone(target: string) {
    Text.Split(target, ':')[0] == "exempt" || Text.Split(target, ':')[0] == "untested"
    || Text.Split(target, ':')[0] == "baseline"
  }

  /** What is wrong with a `by` and a tag, the first that applies. */
  predicate IsShape(e: Raw, shape: Option<Shape>)
    requires e.Entry?
  {
    match e.targets
    case None => shape == Some(NotAList)
    case Some(targets) =>
      if targets == [] then shape == Some(NotAList)
      else if exists j, k :: 0 <= j < k < |targets| && targets[j] == targets[k] then shape == Some(Twice)
      else if |targets| > 1 && exists k :: 0 <= k < |targets| && IsAlone(targets[k]) then shape == Some(NotAlone)
      else if e.tag.Some? && targets != ["exempt:intent"] then shape == Some(TagElsewhere)
      else if e.tag.Some? && e.tag.value != "X" then shape == Some(NotX)
      else shape == None
  }

  lemma ShapeIs(e: Raw)
    requires e.Entry?
    ensures IsShape(e, ShapeOf(e))
    ensures HasCount(e) <==> GoodCount(e.count)
    ensures GoodCount(e.count) ==> Value(e.count) == NumberOf(e)
  {
    if e.targets.Some? {
      var targets := e.targets.value;
      assert forall k :: 0 <= k < |targets| ==> (IsAlone(targets[k]) <==> StandsAlone(targets[k]));
      if exists t :: t in targets && StandsAlone(t) {
        var t :| t in targets && StandsAlone(t);
        var k :| 0 <= k < |targets| && targets[k] == t;
        assert IsAlone(targets[k]);
      }
    }
  }

  /** What is wrong with entry `k`. */
  ghost predicate EntryHas(raw: seq<Raw>, k: nat, bad: (Raw, string) -> bool, p: Problem)
    requires k < |raw|
  {
    var e := raw[k];
    match e
    case Untitled => p == NeedsText(k)
    case Entry(text, unknownKeys, _, targets, _) =>
      || (p == UnknownKeys(k) && unknownKeys)
      || (if IsListed(raw[..k], text) then p == ListedTwice(k)
          else if !HasCount(e) then p == BadCount(k)
          else if !IsShape(e, None) then p.BadShape? && p.entry == k && IsShape(e, Some(p.shape))
          else p.BadTarget? && p.entry == k && targets.Some? && p.target in targets.value && bad(e, p.target))
  }

  lemma ListsSplits(raw: seq<Raw>, text: string)
    requires raw != []
    ensures var n := |raw| - 1;
            && (forall k: nat :: k < n ==> (Lists(raw, k, text) <==> Lists(raw[..n], k, text)))
            && (Lists(raw, n, text) <==> Registers(raw[n], text) && !IsListed(raw[..n], text))
            && (IsListed(raw, text) <==> IsListed(raw[..n], text) || (Registers(raw[n], text)))
  {
    hide Registers;
    var n := |raw| - 1;
    assert forall j: nat :: j < n ==> raw[..n][j] == raw[j];
    assert forall k: nat :: k < n ==> (Lists(raw, k, text) <==> Lists(raw[..n], k, text));
    FirstListed(raw[..n], text);
    if IsListed(raw[..n], text) {
      var k: nat :| Lists(raw[..n], k, text);
      assert Lists(raw, k, text);
    }
    if IsListed(raw, text) && !(Registers(raw[n], text)) {
      var k: nat :| Lists(raw, k, text);
      assert k < n && Lists(raw[..n], k, text);
    }
    if Registers(raw[n], text) && !IsListed(raw[..n], text) {
      assert Lists(raw, n, text);
    }
  }

  /** Some entry with the text and a count means a first one. */
  lemma {:induction false} FirstListed(raw: seq<Raw>, text: string)
    ensures IsListed(raw, text) <==> exists k: nat :: k < |raw| && Registers(raw[k], text)
  {
    hide Registers;
    if raw != [] {
      var n := |raw| - 1;
      FirstListed(raw[..n], text);
      assert forall j: nat :: j < n ==> raw[..n][j] == raw[j];
      if IsListed(raw[..n], text) {
        var k: nat :| Lists(raw[..n], k, text);
        assert Lists(raw, k, text);
      } else if Registers(raw[n], text) {
        assert Lists(raw, n, text);
      }
    }
  }

  /** Which texts are registered, with which count, and what is reported of the entries. */
  lemma {:induction false} EntriesRead(raw: seq<Raw>, bad: (Raw, string) -> bool, text: string, p: Problem)
    ensures var r := ReadEntries(raw, bad);
            && (text in r.registered <==> IsListed(raw, text))
            && (text in r.names <==> IsListed(raw, text))
            && (forall k: nat :: Lists(raw, k, text) ==>
                  k < |raw| && raw[k].Entry? && text in r.registered && r.registered[text] == NumberOf(raw[k]))
            && (p in r.problems <==> exists k :: 0 <= k < |raw| && EntryHas(raw, k, bad, p))
  {
    hide EntryHas, ReadEntry, IsListed, Lists;
    if raw == [] {
      NothingListed(text);
    } else {
      var n := |raw| - 1;
      EntriesRead(raw[..n], bad, text, p);
      ListsSplits(raw, text);
      if raw[n].Entry? {
        EntriesRead(raw[..n], bad, raw[n].text, p);
      }
      EntryRead(ReadEntries(raw[..n], bad), raw, bad, text, p);
      ListsInside(raw, text);
      forall k | 0 <= k < n
        ensures EntryHas(raw[..n], k, bad, p) <==> EntryHas(raw, k, bad, p)
      {
        EntryAlike(raw, k, bad, p);
      }
    }
  }

  lemma NothingListed(text: string)
    ensures !IsListed([], text) && forall k: nat :: !Lists([], k, text)
  {
  }

  lemma ListsInside(raw: seq<Raw>, text: string)
    ensures forall k: nat :: Lists(raw, k, text) ==> k < |raw| && raw[k].Entry? && HasCount(raw[k])
  {
  }

  lemma EntryAlike(raw: seq<Raw>, k: nat, bad: (Raw, string) -> bool, p: Problem)
    requires k < |raw| - 1
    ensures EntryHas(raw[..|raw| - 1], k, bad, p) <==> EntryHas(raw, k, bad, p)
  {
    hide IsListed, IsShape, HasCount;
    assert raw[..|raw| - 1][..k] == raw[..k];
  }

  /** What the last entry registers. */
  lemma EntryRead(before: Reading, raw: seq<Raw>, bad: (Raw, string) -> bool, text: string, p: Problem)
    requires raw != []
    requires raw[|raw| - 1].Entry? ==>
               (raw[|raw| - 1].text in before.registered <==> IsListed(raw[..|raw| - 1], raw[|raw| - 1].text))
    ensures var n := |raw| - 1;
            var after, e := ReadEntry(before, n, raw[n], bad), raw[n];
            && (p in after.problems <==> p in before.problems || EntryHas(raw, n, bad, p))
            && (if Registers(e, text) && text !in before.registered
                then text in after.registered && after.registered[text] == NumberOf(e) && text in after.names
                else (text in after.registered <==> text in before.registered)
                     && (text in before.registered ==> after.registered[text] == before.registered[text])
                     && (text in after.names <==> text in before.names))
  {
    hide IsListed, IsShape, HasCount, ShapeOf, GoodCount, NumberOf, Value, EntryHas, BadTargets;
    var n := |raw| - 1;
    if raw[n].Entry? {
      ShapeIs(raw[n]);
      if ShapeOf(raw[n]).None? {
        HasTargets(raw[n]);
      }
      EntryReported(before, raw, bad, p);
    } else {
      UntitledHas(raw, bad, p);
    }
  }

  lemma UntitledHas(raw: seq<Raw>, bad: (Raw, string) -> bool, p: Problem)
    requires raw != [] && raw[|raw| - 1].Untitled?
    ensures EntryHas(raw, |raw| - 1, bad, p) <==> p == NeedsText(|raw| - 1)
    ensures !HasCount(raw[|raw| - 1])
  {
  }

  lemma HasTargets(e: Raw)
    requires e.Entry? && ShapeOf(e).None?
    ensures e.targets.Some?
  {
  }

  lemma EntryReported(before: Reading, raw: seq<Raw>, bad: (Raw, string) -> bool, p: Problem)
    requires raw != [] && raw[|raw| - 1].Entry?
    requires raw[|raw| - 1].text in before.registered <==> IsListed(raw[..|raw| - 1], raw[|raw| - 1].text)
    ensures var n := |raw| - 1;
            p in ReadEntry(before, n, raw[n], bad).problems <==> p in before.problems || EntryHas(raw, n, bad, p)
  {
    hide IsListed, IsShape, HasCount, ShapeOf, GoodCount, NumberOf, Value, BadTargets;
    var n, e := |raw| - 1, raw[|raw| - 1];
    ShapeIs(e);
    OneShape(e);
    if ShapeOf(e).None? {
      HasTargets(e);
      BadAre(n, e, bad, e.targets.value, p);
    }
  }

  lemma OneShape(e: Raw)
    requires e.Entry?
    ensures forall a, b :: IsShape(e, a) && IsShape(e, b) ==> a == b
  {
  }

  lemma {:induction false} BadAre(k: nat, e: Raw, bad: (Raw, string) -> bool, targets: seq<string>, p: Problem)
    ensures p in BadTargets(k, e, bad, targets)
            <==> p.BadTarget? && p.entry == k && p.target in targets && bad(e, p.target)
    ensures BadTargets(k, e, bad, targets) == [] ==> forall t :: t in targets ==> !bad(e, t)
  {
    if targets != [] {
      var n := |targets| - 1;
      BadAre(k, e, bad, targets[..n], p);
      assert targets == targets[..n] + [targets[n]];
    }
  }

  // --- The page ---

  /** The text's first line on the page. */
  ghost predicate IsFirstLine(page: seq<Unit>, text: string, line: nat) {
    exists k: nat :: k < |page| && page[k].text == text && page[k].line == line
                     && forall j :: 0 <= j < k ==> page[j].text != text
  }

  function TimesOn(page: seq<Unit>, text: string): nat {
    multiset(Texts(page))[text]
  }

  lemma {:induction false} FirstLineIs(page: seq<Unit>, text: string, line: nat)
    requires text in Texts(page)
    ensures IsFirstLine(page, text, line) <==> line == FirstLine(page, text)
  {
    assert Texts(page)[0] == page[0].text;
    if page[0].text == text {
      assert IsFirstLine(page, text, page[0].line);
    } else {
      assert Texts(page)[1..] == Texts(page[1..]) && Texts(page) == [page[0].text] + Texts(page)[1..];
      FirstLineIs(page[1..], text, line);
      LaterLine(page, text, line);
    }
  }

  lemma LaterLine(page: seq<Unit>, text: string, line: nat)
    requires page != [] && page[0].text != text
    ensures IsFirstLine(page, text, line) <==> IsFirstLine(page[1..], text, line)
  {
    if IsFirstLine(page, text, line) {
      var k: nat :| k < |page| && page[k].text == text && page[k].line == line
                    && forall j :: 0 <= j < k ==> page[j].text != text;
      assert page[1..][k - 1] == page[k];
      assert forall j :: 0 <= j < k - 1 ==> page[1..][j] == page[j + 1];
    }
    if IsFirstLine(page[1..], text, line) {
      var k: nat :| k < |page[1..]| && page[1..][k].text == text && page[1..][k].line == line
                    && forall j :: 0 <= j < k ==> page[1..][j].text != text;
      assert page[k + 1] == page[1..][k];
      assert forall j :: 0 < j < k + 1 ==> page[j] == page[1..][j - 1];
    }
  }

  lemma {:induction false} OfPageIs(page: seq<Unit>, registered: map<string, int>, texts: seq<string>, p: Problem)
    requires forall t :: t in texts ==> t in Texts(page)
    ensures p in OfPage(page, registered, texts) <==>
            match p
            case Unregistered(text, line) => text in texts && text !in registered && IsFirstLine(page, text, line)
            case WrongCount(text, line, number, times) =>
              text in texts && text in registered && number == registered[text] != times
              && times == TimesOn(page, text) && IsFirstLine(page, text, line)
            case _ => false
  {
    hide Texts, FirstLine, IsFirstLine;
    if texts != [] {
      var n := |texts| - 1;
      assert texts == texts[..n] + [texts[n]];
      OfPageIs(page, registered, texts[..n], p);
      if p.Unregistered? || p.WrongCount? {
        FirstLineIs(page, texts[n], p.line);
      }
    }
  }

  lemma {:induction false} OfNamesIs(page: seq<Unit>, names: seq<string>, p: Problem)
    ensures p in OfNames(page, names) <==> p.NotOnPage? && p.text in names && p.text !in Texts(page)
  {
    if names != [] {
      var n := |names| - 1;
      assert names == names[..n] + [names[n]];
      OfNamesIs(page, names[..n], p);
    }
  }

  /** What is reported of a registry against its page: of each entry what is wrong with it; a text of
      the page without an entry or with another count, at its first line; an entry's text that is not
      on the page. */
  ghost predicate Reports(raw: seq<Raw>, page: seq<Unit>, bad: (Raw, string) -> bool, p: Problem) {
    match p
    case Unregistered(text, line) =>
      TimesOn(page, text) > 0 && !IsListed(raw, text) && IsFirstLine(page, text, line)
    case WrongCount(text, line, number, times) =>
      times == TimesOn(page, text) > 0 && number != times && IsFirstLine(page, text, line)
      && exists k: nat :: Lists(raw, k, text) && IsNumberOf(raw, k, number)
    case NotOnPage(text) => IsListed(raw, text) && TimesOn(page, text) == 0
    case _ => exists k :: 0 <= k < |raw| && EntryHas(raw, k, bad, p)
  }

  predicate IsNumberOf(raw: seq<Raw>, k: nat, number: int) {
    k < |raw| && raw[k].Entry? && NumberOf(raw[k]) == number
  }

  lemma OwnKinds(raw: seq<Raw>, k: nat, bad: (Raw, string) -> bool, p: Problem)
    requires k < |raw| && EntryHas(raw, k, bad, p)
    ensures !p.Unregistered? && !p.WrongCount? && !p.NotOnPage?
  {
  }

  /** A problem is reported exactly when the registry has it. */
  lemma ReportedIs(raw: seq<Raw>, page: seq<Unit>, bad: (Raw, string) -> bool, p: Problem)
    ensures p in RegistryProblems(raw, page, bad) <==> Reports(raw, page, bad, p)
  {
    hide EntryHas, ReadEntries, OfPage, OfNames, Distinct, Texts, IsListed, Lists, NumberOf;
    var r, text := ReadEntries(raw, bad), if p.Unregistered? || p.WrongCount? || p.NotOnPage? then p.text else "";
    EntriesRead(raw, bad, text, p);
    OfPageIs(page, r.registered, Distinct(Texts(page)), p);
    OfNamesIs(page, r.names, p);
    if exists k :: 0 <= k < |raw| && EntryHas(raw, k, bad, p) {
      var k :| 0 <= k < |raw| && EntryHas(raw, k, bad, p);
      OwnKinds(raw, k, bad, p);
    }
    ListedHasFirst(raw, text);
  }

  lemma ListedHasFirst(raw: seq<Raw>, text: string)
    ensures IsListed(raw, text) <==> exists k: nat :: Lists(raw, k, text)
  {
  }

  // --- The file ---

  /** What is reported of a registry file: why nothing of it can be read, what its own keys are wrong
      in, and then what its entries are. */
  ghost predicate FileHas(file: File, path: string, page: Page, bad: (Raw, string) -> bool, p: FileProblem) {
    match file
    case Unparsed => p == DoesNotParse
    case Parsed(unknownKeys, document, units) =>
      match p
      case DoesNotParse => false
      case UnknownFileKeys => unknownKeys
      case WrongDocument => document != Some(path)
      case ExtractorLacks => page.NoExtractor?
      case PageMissing => page.Missing?
      case PageUnsplit => page.Unsplit?
      case NotTables => page.Units? && units.None?
      case OfUnits(problem) => page.Units? && units.Some? && Reports(units.value, page.units, bad, problem)
  }

  lemma WrapHas(problems: seq<Problem>, p: FileProblem)
    ensures p in Wrap(problems) <==> p.OfUnits? && p.problem in problems
  {
    if p.OfUnits? && p.problem in problems {
      var k :| 0 <= k < |problems| && problems[k] == p.problem;
      assert Wrap(problems)[k] == p;
    }
  }

  lemma FileReportedIs(file: File, path: string, page: Page, bad: (Raw, string) -> bool, p: FileProblem)
    ensures p in FileProblems(file, path, page, bad) <==> FileHas(file, path, page, bad, p)
  {
    hide RegistryProblems, Reports;
    if file.Parsed? && page.Units? && file.units.Some? {
      WrapHas(RegistryProblems(file.units.value, page.units, bad), p);
      if p.OfUnits? {
        ReportedIs(file.units.value, page.units, bad, p.problem);
      }
    }
  }
}
