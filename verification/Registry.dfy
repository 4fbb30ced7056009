/** A page's registry of units against the page (`doc_claims.py`). */
module Registry {
  import opened Wrappers
  import Text
  import opened Sequences

  /** A count as the file gives it: none, a number, or something else. */
  datatype Count = One | Times(n: int) | NotANumber

  /** A `[[unit]]` table: one without a text, or the text with its other keys (`targets`, its `by`, when it is a
      list of strings). */
  datatype Raw =
    | Untitled
    | Entry(text: string, unknownKeys: bool, count: Count, targets: Option<seq<string>>, tag: Option<string>)

  datatype Unit = Unit(text: string, line: nat)

  const COUNT_MAX := 999

  datatype Shape = NotAList | Twice | NotAlone | TagElsewhere | NotX

  datatype Problem =
    | NeedsText(entry: nat)
    | UnknownKeys(entry: nat)
    | ListedTwice(entry: nat)
    | BadCount(entry: nat)
    | BadShape(entry: nat, shape: Shape)
    | BadTarget(entry: nat, target: string)
    | Unregistered(text: string, line: nat)
    | WrongCount(text: string, line: nat, registered: int, found: nat)
    | NotOnPage(text: string)

  /** The family before the first colon stands alone in a `by`. */
  predicate StandsAlone(target: string) {
    var head := Text.Split(target, ':')[0];
    head == "exempt" || head == "untested" || head == "baseline"
  }

  /** What is wrong with an entry's `by` and `tag`. */
  function ShapeOf(e: Raw): Option<Shape>
    requires e.Entry?
  {
    if e.targets.None? || e.targets.value == [] then Some(NotAList)
    else if !NoRepeats(e.targets.value) then Some(Twice)
    else if (exists t :: t in e.targets.value && StandsAlone(t)) && |e.targets.value| > 1 then Some(NotAlone)
    else if e.tag.Some? && e.targets.value != ["exempt:intent"] then Some(TagElsewhere)
    else if e.tag.Some? && e.tag.value != "X" then Some(NotX)
    else None
  }

  /** The entry names at least one target. */
  predicate NamesTargets(e: Raw) {
    e.Entry? && e.targets.Some? && e.targets.value != []
  }

  predicate GoodCount(c: Count) {
    c.One? || (c.Times? && 2 <= c.n <= COUNT_MAX)
  }

  function Value(c: Count): int
    requires GoodCount(c)
  {
    if c.One? then 1 else c.n
  }

  // --- The entries ---

  /** The entries read so far: the texts with their counts, in order; the well-formed ones; and
      the problems. */
  datatype Reading = Reading(registered: map<string, int>, names: seq<string>, entries: seq<Raw>,
                             problems: seq<Problem>)

  const NOTHING := Reading(map[], [], [], [])

  /** The targets of an entry that do not hold, in order. */
  function BadTargets(k: nat, e: Raw, bad: (Raw, string) -> bool, targets: seq<string>): seq<Problem> {
    if targets == [] then []
    else BadTargets(k, e, bad, targets[..|targets| - 1])
         + if bad(e, targets[|targets| - 1]) then [BadTarget(k, targets[|targets| - 1])] else []
  }

  function Say(r: Reading, problems: seq<Problem>): Reading {
    r.(problems := r.problems + problems)
  }

  function ReadEntry(r: Reading, k: nat, e: Raw, bad: (Raw, string) -> bool): Reading {
    if e.Untitled? then Say(r, [NeedsText(k)])
    else
      var keyed := if e.unknownKeys then Say(r, [UnknownKeys(k)]) else r;
      if e.text in keyed.registered then Say(keyed, [ListedTwice(k)])
      else if !GoodCount(e.count) then Say(keyed, [BadCount(k)])
      else
        var listed := keyed.(registered := keyed.registered[e.text := Value(e.count)], names := keyed.names + [e.text]);
        if ShapeOf(e).Some? then Say(listed, [BadShape(k, ShapeOf(e).value)])
        else
          var found := BadTargets(k, e, bad, e.targets.value);
          if found == [] then listed.(entries := listed.entries + [e]) else Say(listed, found)
  }

  function ReadEntries(raw: seq<Raw>, bad: (Raw, string) -> bool): Reading {
    if raw == [] then NOTHING
    else ReadEntry(ReadEntries(raw[..|raw| - 1], bad), |raw| - 1, raw[|raw| - 1], bad)
  }

  method CheckTargets(k: nat, e: Raw, bad: (Raw, string) -> bool, targets: seq<string>) returns (found: seq<Problem>)
    ensures found == BadTargets(k, e, bad, targets)
  {
    found := [];
    for n := 0 to |targets|
      invariant found == BadTargets(k, e, bad, targets[..n])
    {
      assert targets[..n + 1][..n] == targets[..n];
      if bad(e, targets[n]) {
        found := found + [BadTarget(k, targets[n])];
      }
    }
    assert targets[..|targets|] == targets;
  }

  method CheckEntries(raw: seq<Raw>, bad: (Raw, string) -> bool)
    returns (registered: map<string, int>, names: seq<string>, entries: seq<Raw>, problems: seq<Problem>)
    ensures Reading(registered, names, entries, problems) == ReadEntries(raw, bad)
  {
    hide ShapeOf, BadTargets;
    registered, names, entries, problems := map[], [], [], [];
    for k := 0 to |raw|
      invariant Reading(registered, names, entries, problems) == ReadEntries(raw[..k], bad)
    {
      assert raw[..k + 1][..k] == raw[..k];
      var entry := raw[k];
      if entry.Untitled? {
        problems := problems + [NeedsText(k)];
        continue;
      }
      if entry.unknownKeys {
        problems := problems + [UnknownKeys(k)];
      }
      if entry.text in registered {
        problems := problems + [ListedTwice(k)];
        continue;
      }
      if !GoodCount(entry.count) {
        problems := problems + [BadCount(k)];
        continue;
      }
      registered, names := registered[entry.text := Value(entry.count)], names + [entry.text];
      var shape := ShapeOf(entry);
      if shape.Some? {
        problems := problems + [BadShape(k, shape.value)];
        continue;
      }
      ShapedHasTargets(entry);
      var found := CheckTargets(k, entry, bad, entry.targets.value);
      problems := problems + found;
      if found == [] {
        entries := entries + [entry];
      }
    }
    assert raw[..|raw|] == raw;
  }

  lemma ShapedHasTargets(e: Raw)
    requires e.Entry? && ShapeOf(e).None?
    ensures e.targets.Some?
  {
  }

  // --- The page ---

  function Texts(page: seq<Unit>): (r: seq<string>)
    ensures |r| == |page|
  {
    seq(|page|, k requires 0 <= k < |page| => page[k].text)
  }

  /** The members in the order in which each first occurs. */
  function Distinct<T(==, !new)>(s: seq<T>): (r: seq<T>)
    ensures forall x :: x in r <==> x in s
  {
    if s == [] then []
    else
      var last := s[|s| - 1];
      assert s == s[..|s| - 1] + [last];
      Distinct(s[..|s| - 1]) + if last in s[..|s| - 1] then [] else [last]
  }

  function FirstLine(page: seq<Unit>, text: string): (line: nat)
    requires text in Texts(page)
  {
    if page[0].text == text then page[0].line
    else
      assert Texts(page)[1..] == Texts(page[1..]) && Texts(page) == [page[0].text] + Texts(page)[1..];
      FirstLine(page[1..], text)
  }

  function OfPageText(page: seq<Unit>, registered: map<string, int>, text: string): seq<Problem>
    requires text in Texts(page)
  {
    var times := multiset(Texts(page))[text];
    if text !in registered then [Unregistered(text, FirstLine(page, text))]
    else if registered[text] != times then [WrongCount(text, FirstLine(page, text), registered[text], times)]
    else []
  }

  function OfPage(page: seq<Unit>, registered: map<string, int>, texts: seq<string>): seq<Problem>
    requires forall t :: t in texts ==> t in Texts(page)
  {
    if texts == [] then []
    else OfPage(page, registered, texts[..|texts| - 1]) + OfPageText(page, registered, texts[|texts| - 1])
  }

  function OfNames(page: seq<Unit>, names: seq<string>): seq<Problem> {
    if names == [] then []
    else
      OfNames(page, names[..|names| - 1])
      + if names[|names| - 1] in Texts(page) then [] else [NotOnPage(names[|names| - 1])]
  }

  function RegistryProblems(raw: seq<Raw>, page: seq<Unit>, bad: (Raw, string) -> bool): seq<Problem> {
    var r := ReadEntries(raw, bad);
    r.problems + OfPage(page, r.registered, Distinct(Texts(page))) + OfNames(page, r.names)
  }

  /** Each text's number of occurrences and first line, and the texts in order. */
  method CountUnits(page: seq<Unit>) returns (order: seq<string>, seen: map<string, nat>, first: map<string, nat>)
    ensures order == Distinct(Texts(page))
    ensures seen.Keys == first.Keys && forall t :: t in seen <==> t in Texts(page)
    ensures forall t :: t in seen ==> seen[t] == multiset(Texts(page))[t] && first[t] == FirstLine(page, t)
  {
    hide FirstLine, Distinct;
    order, seen, first := [], map[], map[];
    var texts := Texts(page);
    assert Distinct(texts[..0]) == [] by { NothingDistinct(texts[..0]); }
    for k := 0 to |page|
      invariant order == Distinct(texts[..k])
      invariant seen.Keys == first.Keys && forall t :: t in seen <==> t in texts[..k]
      invariant forall t :: t in seen ==> seen[t] == multiset(texts[..k])[t] && first[t] == FirstLine(page, t)
    {
      var unit := page[k];
      assert texts[..k + 1] == texts[..k] + [unit.text];
      DistinctNext(texts[..k], unit.text);
      if unit.text in seen {
        seen := seen[unit.text := seen[unit.text] + 1];
      } else {
        FirstIs(page, k);
        order := order + [unit.text];
        seen, first := seen[unit.text := 1], first[unit.text := unit.line];
      }
    }
    assert texts[..|page|] == texts;
  }

  lemma NothingDistinct(s: seq<string>)
    requires s == []
    ensures Distinct(s) == []
  {
  }

  lemma DistinctNext<T(!new)>(s: seq<T>, x: T)
    ensures Distinct(s + [x]) == Distinct(s) + if x in s then [] else [x]
  {
    assert (s + [x])[..|s|] == s;
  }

  lemma {:induction false} FirstIs(page: seq<Unit>, k: nat)
    requires k < |page| && page[k].text !in Texts(page)[..k]
    ensures page[k].text in Texts(page) && FirstLine(page, page[k].text) == page[k].line
  {
    assert Texts(page)[k] == page[k].text;
    if k > 0 {
      assert Texts(page)[0] in Texts(page)[..k];
      assert Texts(page[1..])[..k - 1] == Texts(page)[1..k];
      assert forall x :: x in Texts(page)[1..k] ==> x in Texts(page)[..k];
      FirstIs(page[1..], k - 1);
    }
  }

  method CheckTexts(page: seq<Unit>, registered: map<string, int>, order: seq<string>,
                    seen: map<string, nat>, first: map<string, nat>) returns (found: seq<Problem>)
    requires seen.Keys == first.Keys && (forall t :: t in seen <==> t in Texts(page))
    requires forall t :: t in seen ==> seen[t] == multiset(Texts(page))[t] && first[t] == FirstLine(page, t)
    requires forall t :: t in order ==> t in Texts(page)
    ensures found == OfPage(page, registered, order)
  {
    hide Texts, FirstLine;
    found := [];
    for k := 0 to |order|
      invariant forall t :: t in order[..k] ==> t in Texts(page)
      invariant found == OfPage(page, registered, order[..k])
    {
      var text := order[k];
      assert order[..k + 1] == order[..k] + [text] && order[..k + 1][..k] == order[..k];
      assert text in order;
      if text !in registered {
        found := found + [Unregistered(text, first[text])];
      } else if registered[text] != seen[text] {
        found := found + [WrongCount(text, first[text], registered[text], seen[text])];
      }
    }
    assert order[..|order|] == order;
  }

  method CheckNames(page: seq<Unit>, names: seq<string>, seen: map<string, nat>) returns (found: seq<Problem>)
    requires forall t :: t in seen <==> t in Texts(page)
    ensures found == OfNames(page, names)
  {
    hide Texts;
    found := [];
    for k := 0 to |names|
      invariant found == OfNames(page, names[..k])
    {
      assert names[..k + 1][..k] == names[..k];
      if names[k] !in seen {
        found := found + [NotOnPage(names[k])];
      }
    }
    assert names[..|names|] == names;
  }

  /** Computes what is wrong with a list of entries for a page, and the entries that can be kept. */
  method CheckRegistry(raw: seq<Raw>, page: seq<Unit>, bad: (Raw, string) -> bool)
    returns (problems: seq<Problem>, entries: seq<Raw>)
    ensures problems == RegistryProblems(raw, page, bad)
    ensures entries == ReadEntries(raw, bad).entries
  {
    hide Texts, Distinct, FirstLine, ReadEntries, OfPage, OfNames;
    var registered, names;
    registered, names, entries, problems := CheckEntries(raw, bad);
    var order, seen, first := CountUnits(page);
    var found := CheckTexts(page, registered, order, seen, first);
    problems := problems + found;
    found := CheckNames(page, names, seen);
    problems := problems + found;
  }

  // --- The file ---

  /** A registry file: one that does not parse, or whether it has unknown keys, the document it
      names, and its units when they are an array of tables. */
  datatype File = Unparsed | Parsed(unknownKeys: bool, document: Option<string>, units: Option<seq<Raw>>)

  /** The page it is the registry of: with no extractor, not there, not split, or its units. */
  datatype Page = NoExtractor | Missing | Unsplit | Units(units: seq<Unit>)

  datatype FileProblem =
    | DoesNotParse | UnknownFileKeys | WrongDocument | ExtractorLacks | PageMissing | PageUnsplit | NotTables
    | OfUnits(problem: Problem)

  function Wrap(problems: seq<Problem>): seq<FileProblem> {
    seq(|problems|, k requires 0 <= k < |problems| => OfUnits(problems[k]))
  }

  function HeadProblems(file: File, path: string): seq<FileProblem>
    requires file.Parsed?
  {
    (if file.unknownKeys then [UnknownFileKeys] else [])
    + if file.document != Some(path) then [WrongDocument] else []
  }

  function FileProblems(file: File, path: string, page: Page, bad: (Raw, string) -> bool): seq<FileProblem> {
    if file.Unparsed? then [DoesNotParse]
    else
      HeadProblems(file, path)
      + match page
        case NoExtractor => [ExtractorLacks]
        case Missing => [PageMissing]
        case Unsplit => [PageUnsplit]
        case Units(units) =>
          if file.units.None? then [NotTables] else Wrap(RegistryProblems(file.units.value, units, bad))
  }

  /** The same for a whole file, which may be useless before any entry is looked at. */
  method CheckFile(file: File, path: string, page: Page, bad: (Raw, string) -> bool)
    returns (problems: seq<FileProblem>, entries: seq<Raw>)
    ensures problems == FileProblems(file, path, page, bad)
    ensures entries == if file.Parsed? && page.Units? && file.units.Some?
                       then ReadEntries(file.units.value, bad).entries
                       else []
  {
    hide RegistryProblems, ReadEntries;
    problems, entries := [], [];
    if file.Unparsed? {
      return [DoesNotParse], [];
    }
    if file.unknownKeys {
      problems := problems + [UnknownFileKeys];
    }
    if file.document != Some(path) {
      problems := problems + [WrongDocument];
    }
    match page {
      case NoExtractor =>
        return problems + [ExtractorLacks], [];
      case Missing =>
        return problems + [PageMissing], [];
      case Unsplit =>
        return problems + [PageUnsplit], [];
      case Units(units) =>
        if file.units.None? {
          return problems + [NotTables], [];
        }
        var found;
        found, entries := CheckRegistry(file.units.value, units, bad);
        problems := problems + Wrap(found);
    }
  }
}
