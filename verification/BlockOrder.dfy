/** What every page's blocks keep: each source line feeds at most one block, in page order,
    and no line of text is dropped without a reason. */
module BlockOrder {
  import opened Wrappers
  import opened LineSyntax
  import opened Blocks

  /** The source lines of some parts, in order. */
  function PartLines(parts: seq<(nat, string)>): (r: seq<nat>)
    ensures |r| == |parts|
  {
    seq(|parts|, k requires 0 <= k < |parts| => parts[k].0)
  }

  /** The source lines of all parts of all blocks, in order. */
  function LinesOf(blocks: seq<BlockValue>): seq<nat> {
    if blocks == [] then []
    else LinesOf(blocks[..|blocks| - 1]) + PartLines(blocks[|blocks| - 1].parts)
  }

  lemma LinesOfAppend(blocks: seq<BlockValue>, block: BlockValue)
    ensures LinesOf(blocks + [block]) == LinesOf(blocks) + PartLines(block.parts)
  {
    assert (blocks + [block])[..|blocks|] == blocks;
  }

  predicate Increasing(s: seq<nat>) {
    forall j, k :: 0 <= j < k < |s| ==> s[j] < s[k]
  }

  /** `lines` are in page order and stop at line `limit`. */
  predicate UpTo(lines: seq<nat>, limit: nat) {
    Increasing(lines) && forall k :: 0 <= k < |lines| ==> 1 <= lines[k] <= limit
  }

  lemma SingleLines(st: State, kind: Kind, number: nat, depth: nat, text: string)
    ensures LinesOf(Single(st, kind, number, depth, text).blocks) == LinesOf(st.blocks) + [number]
    ensures LinesOf(Opened(st, kind, number, depth, text).blocks) == LinesOf(st.blocks) + [number]
  {
    LinesOfAppend(st.blocks, One(kind, number, depth, text));
    assert PartLines([(number, text)]) == [number];
  }

  lemma ExtendedLines(st: State, number: nat, text: string)
    requires st.open && ValidState(st)
    ensures LinesOf(Extended(st, number, text).blocks) == LinesOf(st.blocks) + [number]
  {
    var last := Last(st);
    var init := st.blocks[..|st.blocks| - 1];
    LinesOfAppend(init, last.(parts := last.parts + [(number, text)]));
    assert PartLines(last.parts + [(number, text)]) == PartLines(last.parts) + [number];
    assert LinesOf(init) + (PartLines(last.parts) + [number]) == LinesOf(init) + PartLines(last.parts) + [number];
  }

  /** A setext heading takes its line over from the paragraph above it. */
  lemma UnderlinedLines(syntax: Syntax, st: State)
    requires st.open && ValidState(st)
    ensures LinesOf(Underlined(syntax, st).blocks) == LinesOf(st.blocks)
  {
    var last := Last(st);
    var n := |last.parts| - 1;
    var (line, text) := last.parts[n];
    var init := st.blocks[..|st.blocks| - 1];
    LinesOfAppend(Shortened(st), One(Heading, line, last.depth, syntax.heading(text)));
    assert PartLines([(line, syntax.heading(text))]) == [line];
    assert PartLines(last.parts) == PartLines(last.parts[..n]) + [line];
    if n > 0 {
      LinesOfAppend(init, last.(parts := last.parts[..n]));
    }
    assert LinesOf(init) + (PartLines(last.parts[..n]) + [line]) == LinesOf(init) + PartLines(last.parts[..n]) + [line];
  }

  /** Why line `k` may feed no block: it is blank, an opener with no title, a reference
      definition, an underline, a break, or the separator under a table's header. */
  predicate MayBeDropped(syntax: Syntax, lines: seq<string>, k: nat)
    requires k < |lines|
  {
    var body := Body(lines[k]);
    || body == "" || syntax.opener(body) == Some(None) || syntax.reference(body)
    || IsUnderline(body) || IsBreak(body)
    || (k > 0 && HasPipe(Body(lines[k - 1])) && IsSeparator(syntax, lines[k]))
  }

  /** One turn of the loop feeds the line it reads to a block, or has a reason not to. */
  lemma StepFeeds(syntax: Syntax, lines: seq<string>, i: nat, st: State)
    requires i < |lines| && ValidState(st)
    ensures var (next, j) := Step(syntax, lines, i, st);
            && (LinesOf(next.blocks) == LinesOf(st.blocks) + [i + 1]
                || (LinesOf(next.blocks) == LinesOf(st.blocks) && MayBeDropped(syntax, lines, i)))
            && (j == i + 1 || (j == i + 2 && MayBeDropped(syntax, lines, i + 1)))
  {
    hide Depth, Body, HasPipe, IsHash, IsUnderline, IsBreak, ListMarker, StartsHtml, IsSeparator;
    hide Single, Opened, Extended, Underlined, Shortened, LinesOf;
    var raw, number := lines[i], i + 1;
    var depth, body := Depth(raw), Body(raw);
    SingleLines(st, Row, number, depth, syntax.row(body));
    SingleLines(st, Heading, number, depth, syntax.heading(body));
    match syntax.opener(body) {
      case Some(Some(title)) => SingleLines(st, Heading, number, depth, title);
      case Some(None) =>
      case None =>
    }
    if ListMarker(body).Some? {
      SingleLines(st, List, number, depth, body[ListMarker(body).value..]);
    }
    SingleLines(st, Html, number, depth, body);
    SingleLines(st, Para, number, depth, body);
    if st.open {
      ExtendedLines(st, number, body);
      UnderlinedLines(syntax, st);
    }
  }

  /** On every page the parts of all blocks stand in strictly increasing line order, so no
      source line feeds two blocks, and a line that feeds none may be dropped. */
  lemma {:induction false} LinesInOrder(syntax: Syntax, lines: seq<string>, i: nat, st: State)
    requires i <= |lines| && ValidState(st) && UpTo(LinesOf(st.blocks), i)
    requires forall k :: 0 <= k < i ==> k + 1 in LinesOf(st.blocks) || MayBeDropped(syntax, lines, k)
    ensures var fed := LinesOf(Run(syntax, lines, i, st).blocks);
            && UpTo(fed, |lines|)
            && forall k :: 0 <= k < |lines| ==> k + 1 in fed || MayBeDropped(syntax, lines, k)
    decreases |lines| - i
  {
    hide Step, MayBeDropped, LinesOf, ValidState;
    if i < |lines| {
      var (next, j) := Step(syntax, lines, i, st);
      StepFeeds(syntax, lines, i, st);
      LinesInOrder(syntax, lines, j, next);
    }
  }

  // --- What each block is ---

  /** No part is missing, the block stands where its first part does, and only joined
      blocks have several parts. */
  predicate Shaped(b: BlockValue) {
    && b.parts != [] && b.line == b.parts[0].0
    && (!Joinable(b.kind) ==> |b.parts| == 1)
  }

  /** A part of a block of this kind and depth is the text of its own source line. */
  predicate FromItsLine(syntax: Syntax, lines: seq<string>, kind: Kind, depth: nat, part: (nat, string)) {
    && 1 <= part.0 <= |lines|
    && var raw := lines[part.0 - 1];
    && var body := Body(raw);
    && Depth(raw) == depth
    && match kind
       case Row => part.1 == syntax.row(body)
       case Heading => part.1 == syntax.heading(body) || syntax.opener(body) == Some(Some(part.1))
       case Para => part.1 == body
       case Html => part.1 == body
       case List => part.1 == body || (ListMarker(body).Some? && part.1 == body[ListMarker(body).value..])
  }

  predicate Sound(syntax: Syntax, lines: seq<string>, b: BlockValue) {
    Shaped(b) && forall k :: 0 <= k < |b.parts| ==> FromItsLine(syntax, lines, b.kind, b.depth, b.parts[k])
  }

  predicate AllSound(syntax: Syntax, lines: seq<string>, blocks: seq<BlockValue>) {
    forall n :: 0 <= n < |blocks| ==> Sound(syntax, lines, blocks[n])
  }

  lemma OneIsSound(syntax: Syntax, lines: seq<string>, blocks: seq<BlockValue>, kind: Kind, i: nat, depth: nat,
                   text: string)
    requires AllSound(syntax, lines, blocks) && FromItsLine(syntax, lines, kind, depth, (i + 1, text))
    ensures AllSound(syntax, lines, blocks + [One(kind, i + 1, depth, text)])
  {
    assert Sound(syntax, lines, One(kind, i + 1, depth, text));
  }

  lemma ExtendedIsSound(syntax: Syntax, lines: seq<string>, i: nat, st: State)
    requires i < |lines| && st.open && ValidState(st) && AllSound(syntax, lines, st.blocks)
    requires Last(st).depth == Depth(lines[i])
    ensures AllSound(syntax, lines, Extended(st, i + 1, Body(lines[i])).blocks)
  {
    hide Depth, Body, ListMarker;
    var last := Last(st);
    var part := (i + 1, Body(lines[i]));
    assert FromItsLine(syntax, lines, last.kind, last.depth, part);
    assert Sound(syntax, lines, last.(parts := last.parts + [part]));
  }

  lemma UnderlinedIsSound(syntax: Syntax, lines: seq<string>, st: State)
    requires st.open && ValidState(st) && AllSound(syntax, lines, st.blocks) && Last(st).kind.Para?
    ensures AllSound(syntax, lines, Underlined(syntax, st).blocks)
  {
    hide Depth, Body, ListMarker;
    var last := Last(st);
    var n := |last.parts| - 1;
    assert FromItsLine(syntax, lines, Para, last.depth, last.parts[n]);
    if n > 0 {
      assert Sound(syntax, lines, last.(parts := last.parts[..n]));
    }
    assert AllSound(syntax, lines, Shortened(st));
    OneIsSound(syntax, lines, Shortened(st), Heading, last.parts[n].0 - 1, last.depth, syntax.heading(last.parts[n].1));
  }

  lemma StepIsSound(syntax: Syntax, lines: seq<string>, i: nat, st: State)
    requires i < |lines| && ValidState(st) && AllSound(syntax, lines, st.blocks)
    ensures AllSound(syntax, lines, Step(syntax, lines, i, st).0.blocks)
  {
    hide Body, HasPipe, IsHash, IsUnderline, IsBreak, StartsTable, ListMarker, StartsHtml, AllSound;
    hide Extended, Underlined, Shortened, Depth;
    var raw := lines[i];
    var depth, body := Depth(raw), Body(raw);
    OneIsSound(syntax, lines, st.blocks, Row, i, depth, syntax.row(body));
    OneIsSound(syntax, lines, st.blocks, Heading, i, depth, syntax.heading(body));
    match syntax.opener(body) {
      case Some(Some(title)) => OneIsSound(syntax, lines, st.blocks, Heading, i, depth, title);
      case Some(None) =>
      case None =>
    }
    if ListMarker(body).Some? {
      OneIsSound(syntax, lines, st.blocks, List, i, depth, body[ListMarker(body).value..]);
    }
    OneIsSound(syntax, lines, st.blocks, Html, i, depth, body);
    OneIsSound(syntax, lines, st.blocks, Para, i, depth, body);
    if st.open && Last(st).depth == depth {
      ExtendedIsSound(syntax, lines, i, st);
      if Last(st).kind.Para? {
        UnderlinedIsSound(syntax, lines, st);
      }
    }
  }

  lemma {:induction false} RunIsSound(syntax: Syntax, lines: seq<string>, i: nat, st: State)
    requires i <= |lines| && ValidState(st) && AllSound(syntax, lines, st.blocks)
    ensures AllSound(syntax, lines, Run(syntax, lines, i, st).blocks)
    decreases |lines| - i
  {
    hide Step, AllSound, ValidState;
    if i < |lines| {
      var (next, j) := Step(syntax, lines, i, st);
      StepIsSound(syntax, lines, i, st);
      RunIsSound(syntax, lines, j, next);
    }
  }

  /** What holds of the blocks of every page: none is empty, each part is the text of the
      line it is numbered with, on a line of the block's quote depth; the lines increase
      strictly across all blocks; and every line that feeds none may be dropped. */
  lemma BlocksOfAPage(syntax: Syntax, lines: seq<string>)
    ensures var blocks := BlocksOf(syntax, lines);
            && AllSound(syntax, lines, blocks)
            && UpTo(LinesOf(blocks), |lines|)
            && forall k :: 0 <= k < |lines| ==> k + 1 in LinesOf(blocks) || MayBeDropped(syntax, lines, k)
  {
    LinesInOrder(syntax, lines, 0, START);
    RunIsSound(syntax, lines, 0, START);
  }
}
