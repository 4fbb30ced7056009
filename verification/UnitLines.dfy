/** The sentences of a page's blocks, each with the lines its own words are on. */
module UnitLines {
  import opened Text
  import opened Words
  import opened Blocks
  import opened BlockOrder
  import LineSyntax

  /** The text functions taken as given: markup removal, tag removal, and whether a text
      holds a letter or digit, which an empty one does not. */
  datatype Rules = Rules(normalise: string -> string, stripTags: string -> string, hasWord: string -> bool)

  predicate Proper(rules: Rules) {
    !rules.hasWord("")
  }

  /** A unit with its block's line and the first and last line of its words. */
  datatype Span = Span(text: string, line: nat, first: nat, last: nat)

  function Tidy(rules: Rules, kind: Kind, s: string): string {
    if kind.Html? then rules.stripTags(s) else s
  }

  function Texts(parts: seq<(nat, string)>): seq<string> {
    seq(|parts|, k requires 0 <= k < |parts| => parts[k].1)
  }

  /** The block's text as it is cut into sentences. */
  function Joined(rules: Rules, b: BlockValue): string {
    rules.normalise(Tidy(rules, b.kind, Join(Texts(b.parts), ' ')))
  }

  function Pieces(rules: Rules, b: BlockValue): seq<string>
    requires Shaped(b)
  {
    if Joinable(b.kind) then Sentences(Joined(rules, b), 0) else [b.parts[0].1]
  }

  /** The words of one part, each with the part's line. */
  function Tagged(rules: Rules, kind: Kind, part: (nat, string)): (r: seq<(string, nat)>)
  {
    var words := WordsOf(rules.normalise(Tidy(rules, kind, part.1)));
    seq(|words|, k requires 0 <= k < |words| => (words[k], part.0))
  }

  /** The words of all parts, each with its line. */
  function AllTagged(rules: Rules, kind: Kind, parts: seq<(nat, string)>): seq<(string, nat)> {
    if parts == [] then []
    else AllTagged(rules, kind, parts[..|parts| - 1]) + Tagged(rules, kind, parts[|parts| - 1])
  }

  function Tags(tagged: seq<(string, nat)>): (r: seq<nat>)
    ensures |r| == |tagged|
  {
    seq(|tagged|, k requires 0 <= k < |tagged| => tagged[k].1)
  }

  /** The line of each word, as the words are counted. */
  function Owners(rules: Rules, b: BlockValue): seq<nat>
    requires Shaped(b)
  {
    if Joinable(b.kind) then Tags(AllTagged(rules, b.kind, b.parts))
    else seq(|WordsOf(b.parts[0].1)|, _ => b.line)
  }

  function WordCount(pieces: seq<string>): nat {
    |AllWords(pieces)|
  }

  function FirstLine(b: BlockValue): nat
    requires Shaped(b)
  {
    b.parts[0].0
  }

  function LastLine(b: BlockValue): nat
    requires Shaped(b)
  {
    b.parts[|b.parts| - 1].0
  }

  /** The span of a piece whose words start at `position`. */
  function SpanOf(b: BlockValue, owners: seq<nat>, aligned: bool, piece: string, position: nat): Span
    requires Shaped(b)
    requires aligned ==> position + |WordsOf(piece)| <= |owners|
  {
    var words := WordsOf(piece);
    var text := Join(words, ' ');
    if aligned && words != [] then Span(text, b.line, owners[position], owners[position + |words| - 1])
    else Span(text, b.line, FirstLine(b), LastLine(b))
  }

  /** The spans of the remaining pieces; a piece with no letter or digit gives none. */
  function SpansFrom(rules: Rules, b: BlockValue, owners: seq<nat>, aligned: bool, pieces: seq<string>, position: nat)
    : seq<Span>
    requires Shaped(b)
    requires aligned ==> position + WordCount(pieces) <= |owners|
  {
    if pieces == [] then []
    else
      var span := SpanOf(b, owners, aligned, pieces[0], position);
      (if rules.hasWord(span.text) then [span] else []) +
      SpansFrom(rules, b, owners, aligned, pieces[1..], position + |WordsOf(pieces[0])|)
  }

  function BlockSpans(rules: Rules, b: BlockValue): seq<Span>
    requires Shaped(b)
  {
    var pieces, owners := Pieces(rules, b), Owners(rules, b);
    SpansFrom(rules, b, owners, |owners| == WordCount(pieces), pieces, 0)
  }

  predicate AllShaped(blocks: seq<BlockValue>) {
    forall n :: 0 <= n < |blocks| ==> Shaped(blocks[n])
  }

  function SpansOf(rules: Rules, blocks: seq<BlockValue>): seq<Span>
    requires AllShaped(blocks)
  {
    if blocks == [] then []
    else SpansOf(rules, blocks[..|blocks| - 1]) + BlockSpans(rules, blocks[|blocks| - 1])
  }

  // --- The loops ---

  /** The line of each word of a joined block. */
  method FindOwners(rules: Rules, b: BlockValue) returns (owners: seq<nat>)
    ensures owners == Tags(AllTagged(rules, b.kind, b.parts))
  {
    owners := [];
    for n := 0 to |b.parts|
      invariant owners == Tags(AllTagged(rules, b.kind, b.parts[..n]))
    {
      hide AllTagged, Tagged, Tags;
      var words := WordsOf(rules.normalise(Tidy(rules, b.kind, b.parts[n].1)));
      OwnersStep(rules, b, n);
      owners := owners + seq(|words|, _ => b.parts[n].0);
    }
    assert b.parts[..|b.parts|] == b.parts;
  }

  lemma OwnersStep(rules: Rules, b: BlockValue, n: nat)
    requires n < |b.parts|
    ensures Tags(AllTagged(rules, b.kind, b.parts[..n + 1]))
            == Tags(AllTagged(rules, b.kind, b.parts[..n]))
               + seq(|WordsOf(rules.normalise(Tidy(rules, b.kind, b.parts[n].1)))|, _ => b.parts[n].0)
  {
    hide Tidy, Tags, Tagged;
    assert b.parts[..n + 1][..n] == b.parts[..n];
    TagsAppend(AllTagged(rules, b.kind, b.parts[..n]), Tagged(rules, b.kind, b.parts[n]));
    TagsOfOne(rules, b.kind, b.parts[n]);
  }

  lemma TagsAppend(a: seq<(string, nat)>, b: seq<(string, nat)>)
    ensures Tags(a + b) == Tags(a) + Tags(b)
  {
  }

  lemma TagsOfOne(rules: Rules, kind: Kind, part: (nat, string))
    ensures Tags(Tagged(rules, kind, part))
            == seq(|WordsOf(rules.normalise(Tidy(rules, kind, part.1)))|, _ => part.0)
  {
    hide Tidy, WordsOf;
  }

  /** The pieces of one block and the line of each of its words. */
  method CutBlock(rules: Rules, b: BlockValue) returns (pieces: seq<string>, owners: seq<nat>)
    requires Shaped(b)
    ensures pieces == Pieces(rules, b) && owners == Owners(rules, b)
  {
    hide Shaped;
    if Joinable(b.kind) {
      pieces := Sentences(Joined(rules, b), 0);
      owners := FindOwners(rules, b);
    } else {
      pieces := [OnlyText(b)];
      owners := seq(|WordsOf(pieces[0])|, _ => b.line);
    }
    Chosen(rules, b);
  }

  lemma SpansAppend(found: seq<Span>, span: Span, keep: bool, rest: seq<Span>)
    ensures found + ((if keep then [span] else []) + rest) == (if keep then found + [span] else found) + rest
  {
  }

  lemma SpansStep(rules: Rules, b: BlockValue, owners: seq<nat>, aligned: bool, pieces: seq<string>, n: nat,
                  position: nat)
    requires Shaped(b) && n < |pieces|
    requires aligned ==> position + WordCount(pieces[n..]) <= |owners|
    ensures WordCount(pieces[n..]) == |WordsOf(pieces[n])| + WordCount(pieces[n + 1..])
    ensures var span := SpanOf(b, owners, aligned, pieces[n], position);
            SpansFrom(rules, b, owners, aligned, pieces[n..], position) ==
            (if rules.hasWord(span.text) then [span] else []) +
            SpansFrom(rules, b, owners, aligned, pieces[n + 1..], position + |WordsOf(pieces[n])|)
  {
    assert pieces[n..][1..] == pieces[n + 1..];
  }

  /** One block's spans. Every index into `owners` is in range. */
  method FindBlockSpans(rules: Rules, b: BlockValue) returns (found: seq<Span>)
    requires Shaped(b)
    ensures found == BlockSpans(rules, b)
  {
    hide Pieces, Owners, Shaped, FirstLine, LastLine, WordCount, SpansFrom;
    var pieces, owners := CutBlock(rules, b);
    assert pieces[0..] == pieces;
    var aligned := |owners| == WordCount(pieces);
    found := [];
    var position: nat := 0;
    for n := 0 to |pieces|
      invariant aligned ==> position + WordCount(pieces[n..]) == |owners|
      invariant BlockSpans(rules, b) == found + SpansFrom(rules, b, owners, aligned, pieces[n..], position)
    {
      SpansStep(rules, b, owners, aligned, pieces, n, position);
      var words := WordsOf(pieces[n]);
      var piece := Join(words, ' ');
      var first, last;
      if aligned && words != [] {
        first, last := owners[position], owners[position + |words| - 1];
      } else {
        first, last := FirstLine(b), LastLine(b);
      }
      var span := Span(piece, b.line, first, last);
      SpansAppend(found, span, rules.hasWord(piece),
                  SpansFrom(rules, b, owners, aligned, pieces[n + 1..], position + |words|));
      position := position + |words|;
      if rules.hasWord(piece) {
        found := found + [span];
      }
    }
    assert pieces[|pieces|..] == [];
    SpansEnd(rules, b, owners, aligned, position);
    assert found + [] == found;
  }

  lemma SpansEnd(rules: Rules, b: BlockValue, owners: seq<nat>, aligned: bool, position: nat)
    requires Shaped(b) && (aligned ==> position + WordCount([]) <= |owners|)
    ensures SpansFrom(rules, b, owners, aligned, [], position) == []
  {
  }

  function OnlyText(b: BlockValue): string
    requires Shaped(b)
  {
    b.parts[0].1
  }

  lemma Chosen(rules: Rules, b: BlockValue)
    requires Shaped(b)
    ensures Joinable(b.kind) ==>
              && Pieces(rules, b) == Sentences(Joined(rules, b), 0)
              && Owners(rules, b) == Tags(AllTagged(rules, b.kind, b.parts))
    ensures !Joinable(b.kind) ==>
              && Pieces(rules, b) == [OnlyText(b)]
              && Owners(rules, b) == seq(|WordsOf(OnlyText(b))|, _ => b.line)
  {
  }

  /** The spans of all blocks, one after the other. */
  method FindSpans(rules: Rules, blocks: seq<BlockValue>) returns (found: seq<Span>)
    requires AllShaped(blocks)
    ensures found == SpansOf(rules, blocks)
  {
    found := [];
    for n := 0 to |blocks|
      invariant found == SpansOf(rules, blocks[..n])
    {
      assert blocks[..n + 1][..n] == blocks[..n];
      var spans := FindBlockSpans(rules, blocks[n]);
      found := found + spans;
    }
    assert blocks[..|blocks|] == blocks;
  }

  // --- What the spans keep ---

  /** The block's own text loses and reorders no word when it is cut. */
  lemma PiecesKeepWords(rules: Rules, b: BlockValue)
    requires Shaped(b)
    ensures AllWords(Pieces(rules, b)) ==
            WordsOf(if Joinable(b.kind) then Joined(rules, b) else b.parts[0].1)
  {
    if Joinable(b.kind) {
      SentencesKeepWords(Joined(rules, b), 0);
      assert Joined(rules, b)[0..] == Joined(rules, b);
    } else {
      assert WordsOf(b.parts[0].1) + [] == WordsOf(b.parts[0].1);
    }
  }

  predicate NonDecreasing(s: seq<nat>) {
    forall j, k :: 0 <= j < k < |s| ==> s[j] <= s[k]
  }

  predicate Within(s: seq<nat>, low: nat, high: nat) {
    forall k :: 0 <= k < |s| ==> low <= s[k] <= high
  }

  /** The words of parts in line order are owned in line order. */
  lemma {:induction false} OwnersInOrder(rules: Rules, kind: Kind, parts: seq<(nat, string)>)
    requires parts != [] && Increasing(PartLines(parts))
    ensures var owners := Tags(AllTagged(rules, kind, parts));
            NonDecreasing(owners) && Within(owners, parts[0].0, parts[|parts| - 1].0)
  {
    hide Tagged;
    var n := |parts| - 1;
    var last := Tagged(rules, kind, parts[n]);
    TaggedLine(rules, kind, parts[n]);
    assert PartLines(parts)[0] == parts[0].0 && PartLines(parts)[n] == parts[n].0;
    if n == 0 {
      assert AllTagged(rules, kind, parts[..0]) == [];
      assert AllTagged(rules, kind, parts) == last;
    } else {
      assert PartLines(parts[..n]) == PartLines(parts)[..n];
      OwnersInOrder(rules, kind, parts[..n]);
      assert PartLines(parts)[n - 1] == parts[n - 1].0;
      assert Tags(AllTagged(rules, kind, parts)) == Tags(AllTagged(rules, kind, parts[..n])) + Tags(last);
    }
  }

  lemma TaggedLine(rules: Rules, kind: Kind, part: (nat, string))
    ensures Within(Tags(Tagged(rules, kind, part)), part.0, part.0)
  {
  }

  /** A span's own order, against the lines it may use. */
  predicate InOrder(spans: seq<Span>, low: nat, high: nat) {
    && (forall k :: 0 <= k < |spans| ==> low <= spans[k].first <= spans[k].last <= high)
    && (forall j, k :: 0 <= j < k < |spans| ==>
          spans[j].first <= spans[k].first && spans[j].last <= spans[k].last)
  }

  /** Where words are counted, a sentence also starts on or after the line the sentence
      before it ends on. */
  predicate Apart(spans: seq<Span>) {
    forall j, k :: 0 <= j < k < |spans| ==> spans[j].last <= spans[k].first
  }

  /** What is known of a block's owners: as many as words when aligned, in line order and
      inside the block from `position` on. */
  predicate Fits(b: BlockValue, owners: seq<nat>, aligned: bool, pieces: seq<string>, position: nat)
    requires Shaped(b)
  {
    && FirstLine(b) <= LastLine(b)
    && (aligned ==> position + WordCount(pieces) == |owners|)
    && NonDecreasing(owners) && Within(owners, FirstLine(b), LastLine(b))
  }

  predicate StartFrom(spans: seq<Span>, line: nat) {
    forall k :: 0 <= k < |spans| ==> line <= spans[k].first
  }

  lemma SpanPrepends(span: Span, rest: seq<Span>, low: nat, high: nat)
    requires InOrder(rest, low, high) && Apart(rest) && StartFrom(rest, span.last)
    requires low <= span.first <= span.last <= high
    ensures InOrder([span] + rest, low, high) && Apart([span] + rest) && StartFrom([span] + rest, span.first)
  {
  }

  lemma {:induction false} AlignedSpansInOrder(rules: Rules, b: BlockValue, owners: seq<nat>, pieces: seq<string>,
                                               position: nat)
    requires Proper(rules) && Shaped(b) && Fits(b, owners, true, pieces, position)
    ensures var spans := SpansFrom(rules, b, owners, true, pieces, position);
            && InOrder(spans, FirstLine(b), LastLine(b)) && Apart(spans)
            && (position < |owners| ==> StartFrom(spans, owners[position]))
            && (position == |owners| ==> spans == [])
  {
    hide Shaped, Joinable, FirstLine, LastLine, InOrder, Apart, StartFrom;
    if pieces == [] {
      NoSpans(b);
    } else {
      var next := position + |WordsOf(pieces[0])|;
      AlignedSpansInOrder(rules, b, owners, pieces[1..], next);
      var rest := SpansFrom(rules, b, owners, true, pieces[1..], next);
      if next == position {
        assert [] + rest == rest;
      } else {
        var span := SpanOf(b, owners, true, pieces[0], position);
        assert span.first == owners[position] && span.last == owners[next - 1];
        if next == |owners| {
          StartNowhere(span.last);
        } else {
          StartEarlier(rest, span.last, owners[next]);
        }
        SpanPrepends(span, rest, FirstLine(b), LastLine(b));
        StartEarlier(rest, span.first, span.last);
        assert [] + rest == rest;
      }
    }
  }

  lemma NoSpans(b: BlockValue)
    requires Shaped(b)
    ensures InOrder([], FirstLine(b), LastLine(b)) && Apart([])
  {
  }

  lemma StartNowhere(line: nat)
    ensures StartFrom([], line)
  {
  }

  lemma StartEarlier(spans: seq<Span>, line: nat, later: nat)
    requires line <= later && StartFrom(spans, later)
    ensures StartFrom(spans, line)
  {
  }

  lemma {:induction false} BlockSpansAre(rules: Rules, b: BlockValue, owners: seq<nat>, pieces: seq<string>,
                                         position: nat)
    requires Shaped(b) && FirstLine(b) <= LastLine(b)
    ensures forall s :: s in SpansFrom(rules, b, owners, false, pieces, position) ==>
              s.first == FirstLine(b) && s.last == LastLine(b)
  {
    hide Shaped, Joinable;
    if pieces != [] {
      BlockSpansAre(rules, b, owners, pieces[1..], position + |WordsOf(pieces[0])|);
    }
  }

  /** The spans of one block are in order and inside the block's own lines; where the words
      are aligned no sentence starts before the one above it ends. */
  lemma BlockSpansInOrder(rules: Rules, b: BlockValue)
    requires Proper(rules) && Shaped(b) && Increasing(PartLines(b.parts))
    ensures InOrder(BlockSpans(rules, b), FirstLine(b), LastLine(b))
    ensures |Owners(rules, b)| == WordCount(Pieces(rules, b)) ==> Apart(BlockSpans(rules, b))
  {
    hide Pieces, WordCount;
    var pieces, owners := Pieces(rules, b), Owners(rules, b);
    assert PartLines(b.parts)[0] == FirstLine(b) && PartLines(b.parts)[|b.parts| - 1] == LastLine(b);
    if Joinable(b.kind) {
      OwnersInOrder(rules, b.kind, b.parts);
    }
    if |owners| == WordCount(pieces) {
      AlignedSpansInOrder(rules, b, owners, pieces, 0);
    } else {
      BlockSpansAre(rules, b, owners, pieces, 0);
    }
  }

  lemma LinesOfBlock(blocks: seq<BlockValue>)
    requires blocks != [] && AllShaped(blocks) && Increasing(LinesOf(blocks))
    ensures var n := |blocks| - 1;
            && Increasing(LinesOf(blocks[..n])) && Increasing(PartLines(blocks[n].parts))
            && (forall k :: 0 <= k < |LinesOf(blocks[..n])| ==> LinesOf(blocks[..n])[k] < FirstLine(blocks[n]))
  {
    var n := |blocks| - 1;
    var before, own := LinesOf(blocks[..n]), PartLines(blocks[n].parts);
    var all := LinesOf(blocks);
    assert forall k :: 0 <= k < |before| ==> before[k] == all[k];
    assert forall k :: 0 <= k < |own| ==> own[k] == all[|before| + k];
    assert own[0] == FirstLine(blocks[n]);
  }

  /** Over the whole page: spans are in page order, and stop where the page's parts do. */
  lemma {:induction false} SpansInOrder(rules: Rules, blocks: seq<BlockValue>, low: nat, high: nat)
    requires Proper(rules) && AllShaped(blocks) && Increasing(LinesOf(blocks))
    requires Within(LinesOf(blocks), low, high)
    ensures InOrder(SpansOf(rules, blocks), low, high)
  {
    hide Shaped, BlockSpans, InOrder, FirstLine, LastLine;
    if blocks == [] {
      assert InOrder([], low, high) by { NothingInOrder(low, high); }
    } else {
      var n := |blocks| - 1;
      LinesOfBlock(blocks);
      var before, own := LinesOf(blocks[..n]), PartLines(blocks[n].parts);
      assert LinesOf(blocks) == before + own;
      assert Within(before, low, high) && Within(own, low, high) by {
        assert forall k :: 0 <= k < |before| ==> before[k] == LinesOf(blocks)[k];
        assert forall k :: 0 <= k < |own| ==> own[k] == LinesOf(blocks)[|before| + k];
      }
      ShapedEnds(blocks[n]);
      var top := FirstLine(blocks[n]);
      assert Within(before, low, top);
      BlockSpansInOrder(rules, blocks[n]);
      SpansInOrder(rules, blocks[..n], low, top);
      InOrderAppend(SpansOf(rules, blocks[..n]), BlockSpans(rules, blocks[n]), low, top, LastLine(blocks[n]), high);
    }
  }

  lemma NothingInOrder(low: nat, high: nat)
    ensures InOrder([], low, high)
  {
  }

  lemma InOrderAppend(a: seq<Span>, b: seq<Span>, low: nat, middle: nat, end: nat, high: nat)
    requires InOrder(a, low, middle) && InOrder(b, middle, end) && low <= middle && end <= high
    requires middle <= end
    ensures InOrder(a + b, low, high)
  {
  }

  lemma ShapedEnds(b: BlockValue)
    requires Shaped(b)
    ensures b.parts != []
    ensures PartLines(b.parts)[0] == FirstLine(b) && PartLines(b.parts)[|b.parts| - 1] == LastLine(b)
  {
  }

  /** Every page: its units stand in page order, on lines of the page. */
  lemma PageSpansInOrder(rules: Rules, syntax: LineSyntax.Syntax, lines: seq<string>)
    requires Proper(rules)
    ensures AllShaped(BlocksOf(syntax, lines))
    ensures InOrder(SpansOf(rules, BlocksOf(syntax, lines)), 1, if lines == [] then 1 else |lines|)
  {
    BlocksOfAPage(syntax, lines);
    SpansInOrder(rules, BlocksOf(syntax, lines), 1, if lines == [] then 1 else |lines|);
  }

  // --- Where markup removal keeps each line's words in place, the lines are exact ---

  function Names(tagged: seq<(string, nat)>): (r: seq<string>)
    ensures |r| == |tagged|
  {
    seq(|tagged|, k requires 0 <= k < |tagged| => tagged[k].0)
  }

  /** `words` are the tagged words from `p` on, and the span's lines are the first one's
      and the last one's. */
  predicate ExactAt(span: Span, words: seq<string>, tagged: seq<(string, nat)>, p: nat) {
    && words != [] && p + |words| <= |tagged|
    && Names(tagged)[p..p + |words|] == words
    && span.first == tagged[p].1 && span.last == tagged[p + |words| - 1].1
  }

  predicate Exact(span: Span, tagged: seq<(string, nat)>) {
    exists p :: 0 <= p <= |tagged| && ExactAt(span, WordsOf(span.text), tagged, p)
  }

  lemma TaggedWords(names: seq<string>, position: nat, words: seq<string>, rest: seq<string>)
    requires position <= |names| && names[position..] == words + rest
    ensures var next := position + |words|; next <= |names| && names[position..next] == words && names[next..] == rest
  {
    var next := position + |words|;
    assert |names[position..]| == |words| + |rest|;
    assert names[position..][..|words|] == words && names[position..][|words|..] == rest;
  }

  lemma {:induction false} ExactFrom(rules: Rules, b: BlockValue, tagged: seq<(string, nat)>, pieces: seq<string>,
                                     position: nat)
    requires Proper(rules) && Shaped(b)
    requires position <= |tagged| && Names(tagged)[position..] == AllWords(pieces)
    ensures forall s :: s in SpansFrom(rules, b, Tags(tagged), true, pieces, position) ==> Exact(s, tagged)
  {
    hide Shaped, FirstLine, LastLine, Exact, WordsOf;
    if pieces != [] {
      var words := WordsOf(pieces[0]);
      var next := position + |words|;
      TaggedWords(Names(tagged), position, words, AllWords(pieces[1..]));
      ExactFrom(rules, b, tagged, pieces[1..], next);
      var span := SpanOf(b, Tags(tagged), true, pieces[0], position);
      WordsAreWords(pieces[0]);
      WordsOfJoined(words);
      if words != [] {
        assert ExactAt(span, WordsOf(span.text), tagged, position);
        ExactWitness(span, tagged, position);
      }
    }
  }

  lemma ExactWitness(span: Span, tagged: seq<(string, nat)>, p: nat)
    requires ExactAt(span, WordsOf(span.text), tagged, p)
    ensures Exact(span, tagged)
  {
  }

  /** When normalising the joined block gives the words its lines give, in order, the
      sentence's words are those of the lines its span names, from the first of them on the
      first line to the last of them on the last. */
  lemma SpansAreExact(rules: Rules, b: BlockValue)
    requires Proper(rules) && Shaped(b) && Joinable(b.kind)
    requires WordsOf(Joined(rules, b)) == Names(AllTagged(rules, b.kind, b.parts))
    ensures forall s :: s in BlockSpans(rules, b) ==> Exact(s, AllTagged(rules, b.kind, b.parts))
  {
    hide Shaped;
    var tagged := AllTagged(rules, b.kind, b.parts);
    PiecesKeepWords(rules, b);
    Chosen(rules, b);
    assert Names(tagged)[0..] == Names(tagged);
    ExactFrom(rules, b, tagged, Pieces(rules, b), 0);
  }
}
