/** A guide page as fences and plain lines, and what `guide_blocks.py` extracts from it. */
module GuideBlocks {
  import opened Text
  import opened Words
  import opened Wrappers
  import opened FenceSyntax

  const MARKER_START := "<!-- chart-kind: "
  const MARKER_END := " -->"
  const LOOSE_MARKER := "chart-kind:"

  function TrimStart(s: string): string {
    s[Indent(s)..]
  }

  function Trim(s: string): string {
    RStripBlanks(TrimStart(s))
  }

  predicate IsName(s: string) {
    s != "" && 'a' <= s[0] <= 'z' &&
    forall k :: 0 <= k < |s| ==> 'a' <= s[k] <= 'z' || '0' <= s[k] <= '9' || s[k] == '-'
  }

  /** The block a marker line names. */
  function Marker(line: string): Option<string> {
    var t := Trim(line);
    var from, to := |MARKER_START|, |t| - |MARKER_END|;
    if from <= to && MARKER_START <= t && t[to..] == MARKER_END && IsName(t[from..to]) then Some(t[from..to])
    else None
  }

  predicate IsLoose(line: string) {
    Contains(line, LOOSE_MARKER)
  }

  /** A fence as it opens: the page's own rule, without the backtick exclusion. */
  function GuideOpens(line: string): (o: Option<Opener>)
    ensures o.Some? ==> |o.value.marker| >= 3 && o.value.indent <= |line|
  {
    var indent := Indent(line);
    var rest := line[indent..];
    if rest == "" || (rest[0] != '`' && rest[0] != '~') then None
    else
      var n := RunLength(rest, rest[0]);
      if n < 3 then None else Some(Opener(indent, rest[..n], Trim(rest[n..])))
  }

  /** The language a fence names: the info string's first word, "" when it has none. */
  function Language(o: Opener): string {
    if WordsOf(o.info) == [] then "" else WordsOf(o.info)[0]
  }

  function CloseFrom(lines: seq<string>, i: nat, marker: string): (j: nat)
    requires i <= |lines| && marker != ""
    ensures i <= j <= |lines|
    ensures forall k :: i <= k < j ==> !Closes(lines[k], marker)
    ensures j < |lines| ==> Closes(lines[j], marker)
    decreases |lines| - i
  {
    if i == |lines| || Closes(lines[i], marker) then i else CloseFrom(lines, i + 1, marker)
  }

  function BodyLine(line: string, indent: string): string {
    if indent <= line then line[|indent|..] else line
  }

  function BodyLines(lines: seq<string>, indent: string): (r: seq<string>)
    ensures |r| == |lines|
  {
    seq(|lines|, k requires 0 <= k < |lines| => BodyLine(lines[k], indent))
  }

  // --- A page as plain lines and fences ---

  /** A line outside every fence, or a fence from its opener to its closer, which is the
      page's length when it never closes; lines count from 0. */
  datatype Item = Line(at: nat, text: string)
                | Fence(at: nat, close: nat, opener: Opener, body: string, closed: bool)

  function ItemEnd(item: Item): nat {
    match item case Line(at, _) => at case Fence(_, close, _, _, _) => close
  }

  /** What stands at line `i`, where no fence is open. */
  function ItemAt(lines: seq<string>, i: nat): (item: Item)
    requires i < |lines|
    ensures item.at == i && i <= ItemEnd(item) <= |lines|
  {
    match GuideOpens(lines[i])
    case None => Line(i, lines[i])
    case Some(o) =>
      var close := CloseFrom(lines, i + 1, o.marker);
      Fence(i, close, o, Join(BodyLines(lines[i + 1..close], lines[i][..o.indent]), '\n') + "\n", close < |lines|)
  }

  function ItemsFrom(lines: seq<string>, i: nat): seq<Item>
    decreases |lines| - i
  {
    if i >= |lines| then []
    else [ItemAt(lines, i)] + ItemsFrom(lines, ItemEnd(ItemAt(lines, i)) + 1)
  }

  function Items(lines: seq<string>): seq<Item> {
    ItemsFrom(lines, 0)
  }

  /** The items stand one after the other and leave out no line. */
  lemma {:induction false} ItemsTileThePage(lines: seq<string>, i: nat, n: nat)
    requires i < |lines| && n < |ItemsFrom(lines, i)|
    ensures var items := ItemsFrom(lines, i);
            && items[n].at == (if n == 0 then i else ItemEnd(items[n - 1]) + 1)
            && items[n].at < |lines| && items[n] == ItemAt(lines, items[n].at)
            && (n == |items| - 1 ==> |lines| - 1 <= ItemEnd(items[n]) <= |lines|)
    decreases |lines| - i
  {
    hide ItemAt;
    var j := ItemEnd(ItemAt(lines, i)) + 1;
    var items, rest := ItemsFrom(lines, i), ItemsFrom(lines, j);
    assert forall m :: 0 < m < |items| ==> items[m] == rest[m - 1];
    if n > 0 {
      ItemsTileThePage(lines, j, n - 1);
    }
  }

  // --- What the extraction reports ---

  datatype Problem =
    | NeverCloses(line: nat)
    | NoLanguage(line: nat)
    | Tagged(line: nat)
    | OtherShell(line: nat)
    | Unmarked(line: nat)
    | MarkerAboveOther(line: nat, name: string)
    | MarkerNotAbove(line: nat, name: string)
    | Malformed(line: nat)
    | MarkedTwice(name: string)

  /** Whether a language, in lower case, is a shell dialect other than bash. */
  type Shells = string -> bool

  /** The name and line of the marker an item is, if it is one. */
  function Pending(item: Option<Item>): Option<(string, nat)> {
    match item
    case Some(Line(at, text)) =>
      (match Marker(text) case Some(name) => Some((name, at + 1)) case None => None)
    case _ => None
  }

  function LanguageProblems(shells: Shells, line: nat, language: string): seq<Problem> {
    if language == "" then [NoLanguage(line)]
    else if language[0] == '{' then [Tagged(line)]
    else if shells(language) then [OtherShell(line)]
    else []
  }

  function MarkProblems(line: nat, language: string, pending: Option<(string, nat)>): seq<Problem> {
    if language == "bash" then (if pending.None? then [Unmarked(line)] else [])
    else if pending.Some? then [MarkerAboveOther(pending.value.1, pending.value.0)] else []
  }

  function StrayProblems(pending: Option<(string, nat)>): seq<Problem> {
    if pending.Some? then [MarkerNotAbove(pending.value.1, pending.value.0)] else []
  }

  /** What one item adds, given the item above it. */
  function ItemProblems(shells: Shells, above: Option<Item>, item: Item): seq<Problem> {
    match item
    case Fence(at, _, opener, _, closed) =>
      (if closed then [] else [NeverCloses(at + 1)]) +
      LanguageProblems(shells, at + 1, Language(opener)) +
      MarkProblems(at + 1, Language(opener), Pending(above))
    case Line(at, text) =>
      StrayProblems(Pending(above)) +
      (if Marker(text).None? && IsLoose(text) then [Malformed(at + 1)] else [])
  }

  function ItemBlocks(above: Option<Item>, item: Item): seq<(string, string)> {
    if item.Fence? && Language(item.opener) == "bash" && Pending(above).Some?
    then [(Pending(above).value.0, item.body)] else []
  }

  function LastOf(items: seq<Item>): Option<Item> {
    if items == [] then None else Some(items[|items| - 1])
  }

  function ProblemsOf(shells: Shells, items: seq<Item>): seq<Problem> {
    if items == [] then []
    else
      var above := items[..|items| - 1];
      ProblemsOf(shells, above) + ItemProblems(shells, LastOf(above), items[|items| - 1])
  }

  function BlocksOf(items: seq<Item>): seq<(string, string)> {
    if items == [] then []
    else
      var above := items[..|items| - 1];
      BlocksOf(above) + ItemBlocks(LastOf(above), items[|items| - 1])
  }

  function TwiceProblems(blocks: seq<(string, string)>): seq<Problem> {
    if blocks == [] then []
    else
      var n := |blocks| - 1;
      TwiceProblems(blocks[..n]) +
      (if exists m :: 0 <= m < n && blocks[m].0 == blocks[n].0 then [MarkedTwice(blocks[n].0)] else [])
  }

  function AllProblems(shells: Shells, items: seq<Item>): seq<Problem> {
    ProblemsOf(shells, items) + StrayProblems(Pending(LastOf(items))) + TwiceProblems(BlocksOf(items))
  }

  // --- The loops ---

  method ReadBody(lines: seq<string>, from: nat, o: Opener, indent: string) returns (body: seq<string>, j: nat)
    requires from <= |lines| && o.marker != ""
    ensures j == CloseFrom(lines, from, o.marker) && body == BodyLines(lines[from..j], indent)
  {
    hide Closes, BodyLine;
    body := [];
    j := from;
    while j < |lines| && !Closes(lines[j], o.marker)
      invariant from <= j <= |lines|
      invariant CloseFrom(lines, from, o.marker) == CloseFrom(lines, j, o.marker)
      invariant body == BodyLines(lines[from..j], indent)
    {
      body := body + [BodyLine(lines[j], indent)];
      j := j + 1;
    }
  }

  /** One fence: its blocks and problems, and the line after it. */
  method ReadFence(shells: Shells, lines: seq<string>, i: nat, pending: Option<(string, nat)>,
                   ghost above: Option<Item>)
    returns (blocks: seq<(string, string)>, problems: seq<Problem>, next: nat)
    requires i < |lines| && GuideOpens(lines[i]).Some? && pending == Pending(above)
    ensures var item := ItemAt(lines, i);
            && blocks == ItemBlocks(above, item) && problems == ItemProblems(shells, above, item)
            && next == ItemEnd(item) + 1
  {
    hide GuideOpens, Pending, LanguageProblems, Language, CloseFrom, BodyLine, Join;
    var o := GuideOpens(lines[i]).value;
    var info := Language(o);
    var body, j := ReadBody(lines, i + 1, o, lines[i][..o.indent]);
    blocks, problems := [], [];
    if j == |lines| {
      problems := problems + [NeverCloses(i + 1)];
    }
    problems := problems + LanguageProblems(shells, i + 1, info);
    ghost var first := problems;
    if info == "bash" {
      if pending.None? {
        problems := problems + [Unmarked(i + 1)];
      } else {
        blocks := [(pending.value.0, Join(body, '\n') + "\n")];
      }
    } else if pending.Some? {
      problems := problems + [MarkerAboveOther(pending.value.1, pending.value.0)];
    }
    assert problems == first + MarkProblems(i + 1, info, pending);
    next := j + 1;
  }

  /** One line outside a fence: its problems, and the marker it is. */
  method ReadPlain(shells: Shells, lines: seq<string>, i: nat, pending: Option<(string, nat)>,
                   ghost above: Option<Item>)
    returns (problems: seq<Problem>, marked: Option<(string, nat)>)
    requires i < |lines| && GuideOpens(lines[i]).None? && pending == Pending(above)
    ensures var item := ItemAt(lines, i);
            problems == ItemProblems(shells, above, item) && marked == Pending(Some(item))
  {
    hide GuideOpens, IsLoose, Marker;
    problems, marked := [], None;
    if pending.Some? {
      problems := [MarkerNotAbove(pending.value.1, pending.value.0)];
    }
    var name := Marker(lines[i]);
    if name.Some? {
      marked := Some((name.value, i + 1));
    } else if IsLoose(lines[i]) {
      problems := problems + [Malformed(i + 1)];
    }
  }

  method ReportTwice(blocks: seq<(string, string)>) returns (problems: seq<Problem>)
    ensures problems == TwiceProblems(blocks)
  {
    problems := [];
    var seen: set<string> := {};
    for n := 0 to |blocks|
      invariant seen == set m | 0 <= m < n :: blocks[m].0
      invariant problems == TwiceProblems(blocks[..n])
    {
      assert blocks[..n + 1][..n] == blocks[..n];
      if blocks[n].0 in seen {
        problems := problems + [MarkedTwice(blocks[n].0)];
      }
      seen := seen + {blocks[n].0};
    }
    assert blocks[..|blocks|] == blocks;
  }

  /** The marked blocks of a page's lines, and every problem with them. */
  method Extract(shells: Shells, lines: seq<string>) returns (blocks: seq<(string, string)>, problems: seq<Problem>)
    ensures blocks == BlocksOf(Items(lines)) && problems == AllProblems(shells, Items(lines))
  {
    hide ItemAt, ItemBlocks, ItemProblems, Pending, GuideOpens, ItemsFrom, BlocksOf, ProblemsOf, LastOf, TwiceProblems;
    blocks, problems := [], [];
    var pending: Option<(string, nat)> := None;
    ghost var items: seq<Item> := [];
    NothingRead(shells, lines);
    var i := 0;
    while i < |lines|
      invariant pending == Pending(LastOf(items))
      invariant Items(lines) == items + ItemsFrom(lines, i)
      invariant blocks == BlocksOf(items) && problems == ProblemsOf(shells, items)
      decreases |lines| - i
    {
      ghost var item := ItemAt(lines, i);
      ItemsAppend(items, lines, i);
      AppendItem(shells, items, item);
      if GuideOpens(lines[i]).Some? {
        var found, wrong, next := ReadFence(shells, lines, i, pending, LastOf(items));
        blocks, problems, pending := blocks + found, problems + wrong, None;
        PendingOf(lines, i);
        i := next;
      } else {
        var wrong, marked := ReadPlain(shells, lines, i, pending, LastOf(items));
        problems, pending := problems + wrong, marked;
        PendingOf(lines, i);
        i := i + 1;
      }
      items := items + [item];
    }
    assert items + [] == items;
    if pending.Some? {
      problems := problems + [MarkerNotAbove(pending.value.1, pending.value.0)];
    }
    var twice := ReportTwice(blocks);
    problems := problems + twice;
  }

  lemma NoPending()
    ensures Pending(None) == None
  {
  }

  lemma NothingRead(shells: Shells, lines: seq<string>)
    ensures Pending(LastOf([])) == None && BlocksOf([]) == [] && ProblemsOf(shells, []) == []
    ensures Items(lines) == [] + ItemsFrom(lines, 0)
    ensures forall i: nat :: i >= |lines| ==> ItemsFrom(lines, i) == []
  {
  }

  lemma PendingOf(lines: seq<string>, i: nat)
    requires i < |lines|
    ensures var item := ItemAt(lines, i);
            && (GuideOpens(lines[i]).Some? ==> Pending(Some(item)) == None)
            && (GuideOpens(lines[i]).None? ==> ItemEnd(item) == i && forall above :: ItemBlocks(above, item) == [])
  {
    hide GuideOpens;
  }

  lemma ItemsAppend(items: seq<Item>, lines: seq<string>, i: nat)
    requires i < |lines|
    ensures items + ItemsFrom(lines, i) ==
            (items + [ItemAt(lines, i)]) + ItemsFrom(lines, ItemEnd(ItemAt(lines, i)) + 1)
  {
    hide ItemAt;
  }

  lemma AppendItem(shells: Shells, items: seq<Item>, item: Item)
    ensures LastOf(items + [item]) == Some(item)
    ensures BlocksOf(items + [item]) == BlocksOf(items) + ItemBlocks(LastOf(items), item)
    ensures ProblemsOf(shells, items + [item]) == ProblemsOf(shells, items) + ItemProblems(shells, LastOf(items), item)
  {
    assert (items + [item])[..|items|] == items;
  }

  // --- Nothing reported means exactly this ---

  function Above(items: seq<Item>, n: nat): Option<Item>
    requires n < |items|
  {
    if n == 0 then None else Some(items[n - 1])
  }

  predicate IsBash(item: Item) {
    item.Fence? && Language(item.opener) == "bash"
  }

  /** The fence closes, names a language that is not refused, and stands directly under a
      marker exactly when it is bash. */
  predicate RightFence(shells: Shells, above: Option<Item>, item: Item)
    requires item.Fence?
  {
    var language := Language(item.opener);
    && item.closed && language != "" && language[0] != '{' && !shells(language)
    && (language == "bash" <==> Pending(above).Some?)
  }

  /** A fence is right; a marker stands directly above a bash fence, and no other line
      mentions one. */
  predicate ItemIsRight(shells: Shells, items: seq<Item>, n: nat)
    requires n < |items|
  {
    match items[n]
    case Fence(_, _, _, _, _) => RightFence(shells, Above(items, n), items[n])
    case Line(_, text) =>
      if Marker(text).Some? then n + 1 < |items| && IsBash(items[n + 1]) else !IsLoose(text)
  }

  predicate DistinctNames(blocks: seq<(string, string)>) {
    forall m, n :: 0 <= m < n < |blocks| ==> blocks[m].0 != blocks[n].0
  }

  /** Nothing is reported of the first `k` items. */
  predicate SilentTo(shells: Shells, items: seq<Item>, k: nat)
    requires k <= |items|
  {
    forall n :: 0 <= n < k ==> ItemProblems(shells, Above(items, n), items[n]) == []
  }

  lemma SilentNext(shells: Shells, items: seq<Item>, k: nat)
    requires k < |items|
    ensures SilentTo(shells, items, k + 1)
            <==> SilentTo(shells, items, k) && ItemProblems(shells, Above(items, k), items[k]) == []
  {
    hide ItemProblems;
  }

  lemma {:induction false} NoProblemsTo(shells: Shells, items: seq<Item>, k: nat)
    requires k <= |items|
    ensures ProblemsOf(shells, items[..k]) == [] <==> SilentTo(shells, items, k)
  {
    hide ItemProblems, SilentTo, ProblemsOf, BlocksOf, LastOf;
    if k == 0 {
      SilentAtFirst(shells, items);
    } else {
      NoProblemsTo(shells, items, k - 1);
      SilentNext(shells, items, k - 1);
      assert items[..k] == items[..k - 1] + [items[k - 1]];
      AppendItem(shells, items[..k - 1], items[k - 1]);
      AboveIsLast(items, k - 1);
    }
  }

  lemma SilentAtFirst(shells: Shells, items: seq<Item>)
    ensures ProblemsOf(shells, items[..0]) == [] && SilentTo(shells, items, 0)
  {
  }

  lemma AboveIsLast(items: seq<Item>, k: nat)
    requires k < |items|
    ensures LastOf(items[..k]) == Above(items, k)
  {
  }

  lemma NoProblemsEach(shells: Shells, items: seq<Item>)
    ensures ProblemsOf(shells, items) == [] <==>
            forall n :: 0 <= n < |items| ==> ItemProblems(shells, Above(items, n), items[n]) == []
  {
    hide ItemProblems, ProblemsOf;
    NoProblemsTo(shells, items, |items|);
    assert items[..|items|] == items;
  }

  lemma {:induction false} NoneTwice(blocks: seq<(string, string)>)
    ensures TwiceProblems(blocks) == [] <==> DistinctNames(blocks)
  {
    if blocks != [] {
      var n := |blocks| - 1;
      NoneTwice(blocks[..n]);
      assert forall m :: 0 <= m < n ==> blocks[..n][m] == blocks[m];
    }
  }

  lemma NoItemProblems(shells: Shells, above: Option<Item>, item: Item)
    ensures ItemProblems(shells, above, item) == [] <==>
            match item
            case Fence(_, _, _, _, _) => RightFence(shells, above, item)
            case Line(_, text) => Pending(above).None? && (Marker(text).Some? || !IsLoose(text))
  {
    hide Marker, IsLoose, Language, Pending;
  }

  lemma PendingIsMarker(items: seq<Item>, n: nat)
    requires n < |items|
    ensures Pending(Some(items[n])).Some? <==> items[n].Line? && Marker(items[n].text).Some?
  {
    hide Marker;
  }

  lemma ReportedWhenWrong(shells: Shells, items: seq<Item>, n: nat)
    requires ProblemsOf(shells, items) == [] && Pending(LastOf(items)).None? && n < |items|
    ensures ItemIsRight(shells, items, n)
  {
    hide Marker, IsLoose, Language, Pending, ItemProblems, ProblemsOf;
    NoProblemsEach(shells, items);
    assert ItemProblems(shells, Above(items, n), items[n]) == [];
    NoItemProblems(shells, Above(items, n), items[n]);
    PendingIsMarker(items, n);
    if n + 1 < |items| {
      assert ItemProblems(shells, Above(items, n + 1), items[n + 1]) == [];
      assert Above(items, n + 1) == Some(items[n]);
      NoItemProblems(shells, Above(items, n + 1), items[n + 1]);
    } else {
      assert LastOf(items) == Some(items[n]);
    }
  }

  lemma NotReportedWhenRight(shells: Shells, items: seq<Item>, n: nat)
    requires n < |items| && ItemIsRight(shells, items, n)
    requires n > 0 ==> ItemIsRight(shells, items, n - 1)
    ensures ItemProblems(shells, Above(items, n), items[n]) == []
  {
    hide Marker, IsLoose, Language, Pending, ItemProblems;
    NoItemProblems(shells, Above(items, n), items[n]);
    if n > 0 {
      PendingIsMarker(items, n - 1);
    } else {
      NoPending();
    }
  }

  /** Nothing is reported exactly when every item is right and no name is used twice. */
  lemma NothingReported(shells: Shells, items: seq<Item>)
    ensures AllProblems(shells, items) == [] <==>
            && (forall n :: 0 <= n < |items| ==> ItemIsRight(shells, items, n))
            && DistinctNames(BlocksOf(items))
  {
    hide ItemIsRight, ProblemsOf, ItemProblems, Pending, BlocksOf, DistinctNames, TwiceProblems;
    NoneTwice(BlocksOf(items));
    NoPending();
    if AllProblems(shells, items) == [] {
      forall n | 0 <= n < |items|
        ensures ItemIsRight(shells, items, n)
      {
        ReportedWhenWrong(shells, items, n);
      }
    }
    if forall n :: 0 <= n < |items| ==> ItemIsRight(shells, items, n) {
      forall n | 0 <= n < |items|
        ensures ItemProblems(shells, Above(items, n), items[n]) == []
      {
        NotReportedWhenRight(shells, items, n);
      }
      NoProblemsEach(shells, items);
      if items != [] {
        LastIsNoMarker(shells, items);
      }
    }
  }

  lemma LastIsNoMarker(shells: Shells, items: seq<Item>)
    requires items != [] && ItemIsRight(shells, items, |items| - 1)
    ensures Pending(LastOf(items)).None?
  {
    hide Marker, IsLoose, Language, Pending;
    PendingIsMarker(items, |items| - 1);
  }

  // --- The blocks are the page's bash fences ---

  /** The positions of the bash fences among the first `n` items, in page order. */
  function BashFences(items: seq<Item>, n: nat): seq<nat>
    requires n <= |items|
  {
    if n == 0 then []
    else BashFences(items, n - 1) + (if IsBash(items[n - 1]) then [n - 1] else [])
  }

  /** Each item's own marker, from the line directly above it, and its body. */
  function MarkedBody(items: seq<Item>, n: nat): (string, string)
    requires n < |items| && items[n].Fence? && Pending(Above(items, n)).Some?
  {
    (Pending(Above(items, n)).value.0, items[n].body)
  }

  /** When nothing is reported, the blocks are precisely the page's bash fences, in page
      order, each with the name its marker line gives and its own body. */
  lemma {:induction false} BlocksAreTheBashFences(shells: Shells, items: seq<Item>, n: nat)
    requires n <= |items|
    requires forall k :: 0 <= k < |items| ==> ItemIsRight(shells, items, k)
    ensures var bash := BashFences(items, n);
            && |BlocksOf(items[..n])| == |bash|
            && forall m :: 0 <= m < |bash| ==>
                 && bash[m] < n && IsBash(items[bash[m]]) && Pending(Above(items, bash[m])).Some?
                 && BlocksOf(items[..n])[m] == MarkedBody(items, bash[m])
  {
    hide Marker, IsLoose, Language, Pending;
    if n > 0 {
      BlocksAreTheBashFences(shells, items, n - 1);
      assert items[..n][..n - 1] == items[..n - 1];
      assert LastOf(items[..n - 1]) == Above(items, n - 1);
      assert ItemIsRight(shells, items, n - 1);
    }
  }
}
