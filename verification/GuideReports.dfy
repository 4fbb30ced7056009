/** Which problems the guide extractor reports, each by what it means of the page, and what a block's
    body is. */
module GuideReports {
  import opened Wrappers
  import opened Text
  import opened FenceSyntax
  import opened GuideBlocks
  import opened Words
  import LineShapes

  // --- Bodies ---

  /** The line without the indentation, where it has it. */
  predicate IsDedented(line: string, indent: string, part: string) {
    if |indent| <= |line| && line[..|indent|] == indent then line == indent + part else part == line
  }

  /** A fence's body is its lines up to the closer, each without the opener's own indentation where it
      has that, one to a line. */
  lemma BodyIs(lines: seq<string>, i: nat) returns (parts: seq<string>)
    requires i < |lines| && ItemAt(lines, i).Fence?
    ensures var item := ItemAt(lines, i);
            && |parts| == item.close - i - 1 && item.opener.indent <= |lines[i]|
            && item.body == Join(parts, '\n') + "\n"
            && forall k :: 0 <= k < |parts| ==>
                 i + 1 + k < |lines| && IsDedented(lines[i + 1 + k], lines[i][..item.opener.indent], parts[k])
  {
    hide GuideOpens, CloseFrom, Join;
    var item := ItemAt(lines, i);
    var indent := lines[i][..item.opener.indent];
    parts := BodyLines(lines[i + 1..item.close], indent);
    forall k | 0 <= k < |parts|
      ensures i + 1 + k < |lines| && IsDedented(lines[i + 1 + k], indent, parts[k])
    {
      assert parts[k] == BodyLine(lines[i + 1 + k], indent);
    }
  }

  // --- Problems ---

  /** The marker that the item above is, by its own line and name. */
  predicate IsMarked(items: seq<Item>, n: nat, line: nat, name: string) {
    n < |items| && items[n].Line? && line == items[n].at + 1 && Marker(items[n].text) == Some(name)
  }

  predicate IsUnmarked(items: seq<Item>, n: nat) {
    n < |items| ==> items[n].Fence? || Marker(items[n].text).None?
  }

  /** What is wrong with item `n`. */
  predicate ItemHas(shells: Shells, items: seq<Item>, n: nat, p: Problem)
    requires n < |items|
  {
    match items[n]
    case Fence(at, _, opener, _, closed) =>
      var language := Language(opener);
      (match p
       case NeverCloses(line) => line == at + 1 && !closed
       case NoLanguage(line) => line == at + 1 && language == ""
       case Tagged(line) => line == at + 1 && language != "" && language[0] == '{'
       case OtherShell(line) => line == at + 1 && language != "" && language[0] != '{' && shells(language)
       case Unmarked(line) => line == at + 1 && language == "bash" && (n == 0 || IsUnmarked(items, n - 1))
       case MarkerAboveOther(line, name) => language != "bash" && n > 0 && IsMarked(items, n - 1, line, name)
       case _ => false)
    case Line(at, text) =>
      (match p
       case MarkerNotAbove(line, name) => n > 0 && IsMarked(items, n - 1, line, name)
       case Malformed(line) => line == at + 1 && Marker(text).None? && IsLoose(text)
       case _ => false)
  }

  lemma ItemProblemIs(shells: Shells, items: seq<Item>, n: nat, p: Problem)
    requires n < |items|
    ensures p in ItemProblems(shells, Above(items, n), items[n]) <==> ItemHas(shells, items, n, p)
  {
    hide Marker, IsLoose, Language;
  }

  lemma {:induction false} ProblemsAre(shells: Shells, items: seq<Item>, k: nat, p: Problem)
    requires k <= |items|
    ensures p in ProblemsOf(shells, items[..k]) <==> exists n :: 0 <= n < k && ItemHas(shells, items, n, p)
  {
    hide ItemProblems, ItemHas, ProblemsOf, BlocksOf, LastOf;
    if k == 0 {
      NothingYet(shells, items);
    } else {
      ProblemsAre(shells, items, k - 1, p);
      assert items[..k] == items[..k - 1] + [items[k - 1]];
      AppendItem(shells, items[..k - 1], items[k - 1]);
      AboveIsLast(items, k - 1);
      ItemProblemIs(shells, items, k - 1, p);
    }
  }

  lemma NothingYet(shells: Shells, items: seq<Item>)
    ensures ProblemsOf(shells, items[..0]) == []
  {
  }

  lemma {:induction false} TwiceAre(blocks: seq<(string, string)>, p: Problem)
    ensures p in TwiceProblems(blocks) <==>
            p.MarkedTwice? && exists m, n :: 0 <= m < n < |blocks| && blocks[m].0 == blocks[n].0 == p.name
  {
    if blocks != [] {
      var k := |blocks| - 1;
      TwiceAre(blocks[..k], p);
      assert forall m :: 0 <= m < k ==> blocks[..k][m] == blocks[m];
    }
  }

  /** What is reported of a page: of each item what is wrong with it; a marker in the last line; and
      every name that two blocks have. */
  ghost predicate Reports(shells: Shells, items: seq<Item>, p: Problem) {
    || (exists n :: 0 <= n < |items| && ItemHas(shells, items, n, p))
    || (p.MarkerNotAbove? && items != [] && IsMarked(items, |items| - 1, p.line, p.name))
    || (p.MarkedTwice? && exists m, n :: 0 <= m < n < |BlocksOf(items)|
                                         && BlocksOf(items)[m].0 == BlocksOf(items)[n].0 == p.name)
  }

  /** A problem is reported exactly when the page has it. */
  lemma ReportedIs(shells: Shells, items: seq<Item>, p: Problem)
    ensures p in AllProblems(shells, items) <==> Reports(shells, items, p)
  {
    hide ItemHas, ProblemsOf, BlocksOf, Marker, TwiceProblems;
    ProblemsAre(shells, items, |items|, p);
    assert items[..|items|] == items;
    TwiceAre(BlocksOf(items), p);
  }

  // --- Markers ---

  /** A marker: the name between the mark's two halves, with blanks at most before and after. */
  predicate IsMarkerOf(line: string, left: string, name: string, right: string) {
    line == left + "<!-- chart-kind: " + name + " -->" + right
    && IsName(name) && LineShapes.AllBlank(left) && LineShapes.AllBlank(right)
  }

  lemma MarkerIs(line: string, left: string, name: string, right: string)
    requires IsMarkerOf(line, left, name, right)
    ensures Marker(line) == Some(name)
  {
    hide IsName;
    var t := "<!-- chart-kind: " + name + " -->";
    assert t[0] == '<' && t[|t| - 1] == '>';
    assert line == left + (t + right);
    assert (t + right)[0] == '<';
    LineShapes.IndentIs(left, t + right);
    assert line[|left|..] == t + right;
    LineShapes.BlanksTrimmed(t, right);
    assert t[|MARKER_START|..|t| - |MARKER_END|] == name && t[|t| - |MARKER_END|..] == MARKER_END;
    assert t[..|MARKER_START|] == MARKER_START;
  }

  lemma MarkerLeaves(line: string) returns (left: string, right: string)
    requires Marker(line).Some?
    ensures IsMarkerOf(line, left, Marker(line).value, right)
  {
    hide IsName;
    LineShapes.IndentLeaves(line);
    left := line[..Indent(line)];
    var rest := line[Indent(line)..];
    right := LineShapes.TrimLeaves(rest);
    InParts(Trim(line));
    OneText(left, "<!-- chart-kind: " + Marker(line).value + " -->", right);
  }

  /** What a trimmed marker is put together from. */
  lemma InParts(t: string)
    ensures var from, to := |MARKER_START|, |t| - |MARKER_END|;
            from <= to && MARKER_START <= t && t[to..] == MARKER_END
            ==> t == "<!-- chart-kind: " + t[from..to] + " -->"
  {
  }

  lemma OneText(a: string, b: string, c: string)
    ensures a + (b + c) == a + b + c
  {
  }

  // --- Fences and their languages ---

  /** Nothing at either end is blank. */
  predicate IsTrimmed(s: string) {
    s != "" ==> !IsBlank(s[0]) && !IsBlank(s[|s| - 1])
  }

  /** A line that opens a fence on a guide: as on every page, but a backtick fence's info string may
      hold backticks, and the info string goes without the blanks around it. */
  predicate IsGuideOpener(line: string, indent: string, marker: string, gap: string, info: string, right: string) {
    && line == indent + marker + (gap + info + right)
    && LineShapes.AllBlank(indent) && LineShapes.AllBlank(gap) && LineShapes.AllBlank(right)
    && |marker| >= 3 && (marker[0] == '`' || marker[0] == '~') && LineShapes.AllOf(marker, marker[0])
    && IsTrimmed(info) && (gap == "" && info != "" ==> info[0] != marker[0])
  }

  lemma TrimIs(gap: string, info: string, right: string)
    requires LineShapes.AllBlank(gap) && LineShapes.AllBlank(right) && IsTrimmed(info)
    ensures Trim(gap + info + right) == info
  {
    if info == "" {
      assert gap + info + right == (gap + right) + "";
      LineShapes.IndentIs(gap + right, "");
      assert (gap + info + right)[|gap + right|..] == "";
    } else {
      assert gap + info + right == gap + (info + right);
      LineShapes.IndentIs(gap, info + right);
      assert (gap + info + right)[|gap|..] == info + right;
      LineShapes.BlanksTrimmed(info, right);
    }
  }

  lemma TrimLeavesAll(s: string) returns (gap: string, right: string)
    ensures LineShapes.AllBlank(gap) && LineShapes.AllBlank(right) && IsTrimmed(Trim(s))
    ensures s == gap + Trim(s) + right
  {
    LineShapes.IndentLeaves(s);
    gap := s[..Indent(s)];
    right := LineShapes.TrimLeaves(s[Indent(s)..]);
    EndsBare(s[Indent(s)..]);
  }

  lemma {:induction false} EndsBare(s: string)
    ensures var t := RStripBlanks(s); t <= s && (t != "" ==> !IsBlank(t[|t| - 1]))
  {
    if s != "" && IsBlank(s[|s| - 1]) {
      EndsBare(s[..|s| - 1]);
    }
  }

  /** Exactly such lines open one. */
  lemma GuideOpenerOpens(line: string, indent: string, marker: string, gap: string, info: string, right: string)
    requires IsGuideOpener(line, indent, marker, gap, info, right)
    ensures GuideOpens(line) == Some(Opener(|indent|, marker, info))
  {
    hide Trim, IsTrimmed;
    var rest := gap + info + right;
    assert line == indent + (marker + rest);
    LineShapes.IndentIs(indent, marker + rest);
    assert line[|indent|..] == marker + rest;
    assert rest != "" ==> rest[0] != marker[0];
    LineShapes.RunIs(marker, rest, marker[0]);
    assert (marker + rest)[..|marker|] == marker && (marker + rest)[|marker|..] == rest;
    TrimIs(gap, info, right);
  }

  lemma GuideOpenerLeaves(line: string) returns (gap: string, right: string)
    requires GuideOpens(line).Some?
    ensures var o := GuideOpens(line).value; IsGuideOpener(line, line[..o.indent], o.marker, gap, o.info, right)
  {
    hide Trim, IsTrimmed;
    LineShapes.IndentLeaves(line);
    var o := GuideOpens(line).value;
    var rest := line[o.indent..][|o.marker|..];
    gap, right := TrimLeavesAll(rest);
    assert line == line[..o.indent] + o.marker + rest;
  }

  /** The first word of a text, if it has one: white space at most stands before it, and straight
      after it. */
  predicate IsFirstWord(s: string, left: string, word: string, rest: string) {
    && s == left + word + rest && LineShapes.AllSpace(left)
    && (forall k :: 0 <= k < |word| ==> !IsSpace(word[k]))
    && if word == "" then rest == "" else rest != "" ==> IsSpace(rest[0])
  }

  /** The language of a fence is its info string's first word. */
  lemma LanguageIs(o: Opener) returns (left: string, rest: string)
    ensures IsFirstWord(o.info, left, Language(o), rest)
  {
    hide IsFirstWord;
    left, rest := FirstWord(o.info);
  }

  lemma {:induction false} FirstWord(s: string) returns (left: string, rest: string)
    ensures IsFirstWord(s, left, if WordsOf(s) == [] then "" else WordsOf(s)[0], rest)
  {
    hide IsFirstWord, IsSpace;
    if s == "" {
      left, rest := "", "";
      NoWord();
    } else if IsSpace(s[0]) {
      var more;
      more, rest := FirstWord(s[1..]);
      left := [s[0]] + more;
      SpaceFirst(s, more, if WordsOf(s) == [] then "" else WordsOf(s)[0], rest);
    } else {
      left, rest := "", s[WordEnd(s)..];
      WordFirst(s, WordEnd(s));
    }
  }

  lemma NoWord()
    ensures IsFirstWord("", "", "", "")
  {
  }

  lemma SpaceFirst(s: string, left: string, word: string, rest: string)
    requires s != "" && IsSpace(s[0]) && IsFirstWord(s[1..], left, word, rest)
    ensures IsFirstWord(s, [s[0]] + left, word, rest)
  {
    hide IsSpace;
    assert s == [s[0]] + s[1..];
  }

  lemma WordFirst(s: string, n: nat)
    requires 0 < n <= |s| && (forall k :: 0 <= k < n ==> !IsSpace(s[k])) && (n < |s| ==> IsSpace(s[n]))
    ensures IsFirstWord(s, "", s[..n], s[n..])
  {
    hide IsSpace;
    assert s == "" + s[..n] + s[n..];
  }
}
