/** From a page's text to its units: no unit comes from a line inside a fence. */
module FenceUnits {
  import opened Wrappers
  import opened Text
  import opened LineSyntax
  import opened Blocks
  import opened BlockOrder
  import opened UnitLines
  import Fences
  import VisibleLines

  // --- Blank lines ---

  lemma BlankStep(syntax: Syntax, lines: seq<string>, i: nat, st: State)
    requires i < |lines| && ValidState(st) && Body(lines[i]) == ""
    ensures Step(syntax, lines, i, st) == (Close(st), i + 1)
  {
  }

  /** A line that is blank, or blank inside its blockquotes, feeds no block. */
  lemma {:induction false} BlankFeedsNone(syntax: Syntax, lines: seq<string>, i: nat, st: State, k: nat)
    requires i <= |lines| && ValidState(st) && k < |lines| && Body(lines[k]) == "" && k + 1 !in LinesOf(st.blocks)
    ensures k + 1 !in LinesOf(Run(syntax, lines, i, st).blocks)
    decreases |lines| - i
  {
    hide Step, MayBeDropped, LinesOf, ValidState, Body;
    if i < |lines| {
      var (next, j) := Step(syntax, lines, i, st);
      StepFeeds(syntax, lines, i, st);
      if i == k {
        BlankStep(syntax, lines, i, st);
      }
      BlankFeedsNone(syntax, lines, j, next, k);
    }
  }

  // --- Blocks have no gaps ---

  /** The block's lines follow each other. */
  predicate Unbroken(b: BlockValue) {
    b.parts != [] && forall n :: 0 <= n < |b.parts| ==> b.parts[n].0 == b.parts[0].0 + n
  }

  predicate AllUnbroken(blocks: seq<BlockValue>) {
    forall n :: 0 <= n < |blocks| ==> Unbroken(blocks[n])
  }

  /** After `i` lines, every block is unbroken, and an open one ends with the last of them. */
  predicate Follows(st: State, i: nat) {
    && AllUnbroken(st.blocks)
    && (st.open ==> st.blocks != [] && EndOf(st.blocks[|st.blocks| - 1]) == i)
  }

  function EndOf(b: BlockValue): nat {
    if b.parts == [] then 0 else b.parts[|b.parts| - 1].0
  }

  lemma OneFollows(st: State, kind: Kind, i: nat, depth: nat, text: string)
    requires AllUnbroken(st.blocks)
    ensures var one := Single(st, kind, i + 1, depth, text); AllUnbroken(one.blocks) && !one.open
    ensures Follows(Opened(st, kind, i + 1, depth, text), i + 1)
  {
    assert Unbroken(One(kind, i + 1, depth, text));
  }

  lemma ExtendedFollows(st: State, i: nat, text: string)
    requires st.open && ValidState(st) && Follows(st, i)
    ensures Follows(Extended(st, i + 1, text), i + 1)
  {
    var last := Last(st);
    assert Unbroken(last);
    assert Unbroken(last.(parts := last.parts + [(i + 1, text)]));
  }

  lemma UnderlinedFollows(syntax: Syntax, st: State, j: nat)
    requires st.open && ValidState(st) && AllUnbroken(st.blocks)
    ensures Follows(Underlined(syntax, st), j)
  {
    var last := Last(st);
    var n := |last.parts| - 1;
    assert Unbroken(last);
    if n > 0 {
      assert Unbroken(last.(parts := last.parts[..n]));
    }
    assert Unbroken(One(Heading, last.parts[n].0, last.depth, syntax.heading(last.parts[n].1)));
  }

  lemma StepFollows(syntax: Syntax, lines: seq<string>, i: nat, st: State)
    requires i < |lines| && ValidState(st) && Follows(st, i)
    ensures var (next, j) := Step(syntax, lines, i, st); Follows(next, j)
  {
    hide Body, HasPipe, IsHash, IsUnderline, IsBreak, StartsTable, ListMarker, StartsHtml, AllUnbroken;
    hide Single, Opened, Extended, Underlined, Depth;
    var depth, body := Depth(lines[i]), Body(lines[i]);
    OneFollows(st, Row, i, depth, syntax.row(body));
    OneFollows(st, Heading, i, depth, syntax.heading(body));
    match syntax.opener(body) {
      case Some(Some(title)) => OneFollows(st, Heading, i, depth, title);
      case Some(None) =>
      case None =>
    }
    if ListMarker(body).Some? {
      OneFollows(st, List, i, depth, body[ListMarker(body).value..]);
    }
    OneFollows(st, Html, i, depth, body);
    OneFollows(st, Para, i, depth, body);
    if st.open {
      ExtendedFollows(st, i, body);
      UnderlinedFollows(syntax, st, i + 1);
    }
  }

  lemma {:induction false} RunFollows(syntax: Syntax, lines: seq<string>, i: nat, st: State)
    requires i <= |lines| && ValidState(st) && Follows(st, i)
    ensures AllUnbroken(Run(syntax, lines, i, st).blocks)
    decreases |lines| - i
  {
    hide Step, AllUnbroken, ValidState;
    if i < |lines| {
      var (next, j) := Step(syntax, lines, i, st);
      StepFollows(syntax, lines, i, st);
      RunFollows(syntax, lines, j, next);
    }
  }

  /** On every page each block is a run of lines that follow each other, none of them blank. */
  lemma BlocksAreRuns(syntax: Syntax, lines: seq<string>, n: nat, k: nat)
    requires n < |BlocksOf(syntax, lines)|
    ensures var b := BlocksOf(syntax, lines)[n];
            && Shaped(b) && Unbroken(b)
            && (FirstLine(b) <= k + 1 <= LastLine(b) ==> k < |lines| && Body(lines[k]) != "")
  {
    hide Body, Run, Sound, Increasing, LinesOf, MayBeDropped;
    RunFollows(syntax, lines, 0, START);
    BlocksOfAPage(syntax, lines);
    var blocks := BlocksOf(syntax, lines);
    var b := blocks[n];
    assert Sound(syntax, lines, b);
    SoundIsShaped(syntax, lines, b);
    if FirstLine(b) <= k + 1 <= LastLine(b) {
      assert b.parts[k + 1 - FirstLine(b)].0 == k + 1;
      PartIsFed(blocks, n, k + 1 - FirstLine(b));
      if k < |lines| && Body(lines[k]) == "" {
        assert k + 1 !in LinesOf(START.blocks) by { NothingFed(); }
        BlankFeedsNone(syntax, lines, 0, START, k);
      }
    }
  }

  lemma SoundIsShaped(syntax: Syntax, lines: seq<string>, b: BlockValue)
    requires Sound(syntax, lines, b)
    ensures Shaped(b)
  {
  }

  lemma NothingFed()
    ensures LinesOf(START.blocks) == []
  {
  }

  lemma {:induction false} PartIsFed(blocks: seq<BlockValue>, n: nat, m: nat)
    requires n < |blocks| && m < |blocks[n].parts|
    ensures blocks[n].parts[m].0 in LinesOf(blocks)
  {
    if n < |blocks| - 1 {
      PartIsFed(blocks[..|blocks| - 1], n, m);
    } else {
      assert PartLines(blocks[n].parts)[m] == blocks[n].parts[m].0;
    }
  }

  // --- Units ---

  /** Each unit of a page is of one block, on its lines. */
  lemma {:induction false} UnitIsOfABlock(rules: Rules, blocks: seq<BlockValue>, u: Span) returns (n: nat)
    requires Proper(rules) && AllShaped(blocks) && AllUnbroken(blocks) && u in SpansOf(rules, blocks)
    ensures n < |blocks| && FirstLine(blocks[n]) <= u.first <= u.last <= LastLine(blocks[n])
  {
    hide BlockSpans;
    n := |blocks| - 1;
    if u in BlockSpans(rules, blocks[n]) {
      var b := blocks[n];
      assert Unbroken(b);
      assert Increasing(PartLines(b.parts));
      BlockSpansInOrder(rules, b);
    } else {
      n := UnitIsOfABlock(rules, blocks[..n], u);
    }
  }

  /** The lines a unit spans are all lines with text. */
  lemma UnitsHaveText(rules: Rules, syntax: Syntax, lines: seq<string>, u: Span, k: nat)
    requires Proper(rules) && AllShaped(BlocksOf(syntax, lines))
    requires u in SpansOf(rules, BlocksOf(syntax, lines)) && u.first <= k + 1 <= u.last
    ensures k < |lines| && Body(lines[k]) != ""
  {
    hide Run, Body, SpansOf, Increasing;
    RunFollows(syntax, lines, 0, START);
    var n := UnitIsOfABlock(rules, BlocksOf(syntax, lines), u);
    BlocksAreRuns(syntax, lines, n, k);
  }

  /** The whole way: on a page without carriage returns, front matter and comment openers outside
      fences, no line of a fence that the parser of the examples returns is among the lines of a
      unit. */
  lemma UnitsAreOutsideFences(rules: Rules, syntax: Syntax, text: string, u: Span, k: nat)
    requires Proper(rules) && '\r' !in text
    requires var raw := Split(text, '\n');
             && VisibleLines.IsFrontMatter(raw, 0) && VisibleLines.NoComments(raw, 0)
             && Fences.FencesFrom(raw, 0).Ok? && k < |raw| && Fences.Covered(Fences.FencesFrom(raw, 0).value, k)
    ensures VisibleLines.Visible(text).Ok?
    ensures var blocks := BlocksOf(syntax, VisibleLines.Visible(text).value);
            AllShaped(blocks) && (u in SpansOf(rules, blocks) ==> !(u.first <= k + 1 <= u.last))
  {
    hide VisibleLines.Visible, SpansOf, Run, VisibleLines.NoComments, Fences.FencesFrom;
    VisibleLines.ScannersAgree(text);
    var lines := VisibleLines.Visible(text).value;
    PageSpansInOrder(rules, syntax, lines);
    assert lines[k] == "" && Body("") == "";
    if u in SpansOf(rules, BlocksOf(syntax, lines)) && u.first <= k + 1 <= u.last {
      UnitsHaveText(rules, syntax, lines, u, k);
    }
  }
}
