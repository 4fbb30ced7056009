/** How a block's text is cut into the pieces its units are. */
module Cutting {
  import opened Text
  import opened Sequences
  import opened Words
  import opened Blocks
  import opened BlockOrder
  import opened UnitLines

  // --- Sentences ---

  predicate IsStop(c: char) {
    c == '.' || c == '!' || c == '?'
  }

  /** The piece holds no space straight after a full stop, an exclamation or a question mark. */
  predicate Whole(piece: string) {
    forall k :: 0 < k < |piece| && IsStop(piece[k - 1]) ==> piece[k] != ' '
  }

  predicate EndsInStop(piece: string) {
    piece != "" && IsStop(piece[|piece| - 1])
  }

  /** The pieces are the text at each space after a sentence's end: joined by single spaces they
      give it back, none holds such a space, and each but the last ends a sentence. */
  predicate IsCut(s: string, pieces: seq<string>) {
    && pieces != [] && Join(pieces, ' ') == s
    && (forall k :: 0 <= k < |pieces| ==> Whole(pieces[k]))
    && forall k :: 0 <= k < |pieces| - 1 ==> EndsInStop(pieces[k])
  }

  lemma NoCutInside(s: string, start: nat, end: nat)
    requires start <= end <= |s| && forall k :: start <= k < end ==> !Cuts(s, k)
    ensures Whole(s[start..end])
  {
    var piece := s[start..end];
    forall k | 0 < k < |piece| && IsStop(piece[k - 1]) ensures piece[k] != ' ' {
      assert !Cuts(s, start + k);
    }
  }

  lemma JoinMore(first: string, rest: seq<string>)
    requires rest != []
    ensures Join([first] + rest, ' ') == first + [' '] + Join(rest, ' ')
  {
    assert ([first] + rest)[1..] == rest;
  }

  lemma CutsAre(s: string, c: nat)
    requires c < |s|
    ensures Cuts(s, c) <==> c > 0 && s[c] == ' ' && IsStop(s[c - 1])
  {
  }

  lemma CutMore(first: string, rest: seq<string>, tail: string)
    requires IsCut(tail, rest) && Whole(first) && EndsInStop(first)
    ensures IsCut(first + [' '] + tail, [first] + rest)
  {
    hide Whole, EndsInStop, Join;
    JoinMore(first, rest);
  }

  lemma CutNot(s: string)
    requires Whole(s)
    ensures IsCut(s, [s])
  {
    hide Whole;
  }

  lemma {:induction false} SentencesCut(s: string, start: nat)
    requires start <= |s| && (start > 0 ==> s[start - 1] == ' ')
    ensures IsCut(s[start..], Sentences(s, start))
    decreases |s| - start
  {
    hide Cuts, Whole, NextCut, IsCut;
    var c := NextCut(s, start);
    NoCutInside(s, start, c);
    if c == |s| {
      assert s[start..c] == s[start..];
      CutNot(s[start..]);
    } else {
      CutsAre(s, c);
      SentencesCut(s, c + 1);
      assert s[start..] == s[start..c] + [' '] + s[c + 1..];
      CutMore(s[start..c], Sentences(s, c + 1), s[c + 1..]);
    }
  }

  lemma FirstPiece(s: string, pieces: seq<string>)
    requires IsCut(s, pieces)
    ensures pieces[0] <= s
    ensures if |pieces| == 1 then pieces[0] == s
            else |pieces[0]| < |s| && s[|pieces[0]|] == ' ' && EndsInStop(pieces[0])
                 && IsCut(s[|pieces[0]| + 1..], pieces[1..])
  {
    hide Whole, EndsInStop;
    if |pieces| > 1 {
      JoinMore(pieces[0], pieces[1..]);
      assert pieces == [pieces[0]] + pieces[1..];
      assert s == pieces[0] + [' '] + Join(pieces[1..], ' ');
      assert s[|pieces[0]| + 1..] == Join(pieces[1..], ' ');
    }
  }

  lemma NoCutIn(longer: string, s: string, n: nat)
    requires longer <= s && Whole(longer) && 0 < n < |longer|
    ensures !(s[n] == ' ' && EndsInStop(s[..n]))
  {
    assert longer[n - 1] == s[n - 1] && longer[n] == s[n];
  }

  /** A first piece that ends before another one's end would leave that one a cut inside. */
  lemma NoShorter(s: string, a: seq<string>, b: seq<string>)
    requires IsCut(s, a) && IsCut(s, b)
    ensures |a[0]| >= |b[0]|
  {
    hide Whole, IsStop;
    FirstPiece(s, b);
    var n := |a[0]|;
    if 0 < n < |b[0]| {
      NoCutIn(b[0], s, n);
    }
    FirstPiece(s, a);
    assert a[0] == s[..n];
  }

  /** There is one way to cut a text. */
  lemma {:induction false} CutOnce(s: string, a: seq<string>, b: seq<string>)
    requires IsCut(s, a) && IsCut(s, b)
    ensures a == b
    decreases |s|
  {
    NoShorter(s, a, b);
    NoShorter(s, b, a);
    FirstPiece(s, a);
    FirstPiece(s, b);
    assert a[0] == b[0];
    assert a == [a[0]] + a[1..] && b == [b[0]] + b[1..];
    if |a| > 1 {
      CutOnce(s[|a[0]| + 1..], a[1..], b[1..]);
    } else {
      assert a[1..] == [] == b[1..];
    }
  }

  /** The sentences of a text are its one cut. */
  lemma SentencesAre(s: string, pieces: seq<string>)
    ensures pieces == Sentences(s, 0) <==> IsCut(s, pieces)
  {
    hide IsCut;
    SentencesCut(s, 0);
    assert s[0..] == s;
    if IsCut(s, pieces) {
      CutOnce(s, pieces, Sentences(s, 0));
    }
  }

  // --- Pieces and units ---

  /** A piece as a unit's text. */
  function Tidied(piece: string): string {
    Join(WordsOf(piece), ' ')
  }

  function TidiedAll(pieces: seq<string>): seq<string> {
    seq(|pieces|, k requires 0 <= k < |pieces| => Tidied(pieces[k]))
  }

  function TextsOf(spans: seq<Span>): seq<string> {
    seq(|spans|, k requires 0 <= k < |spans| => spans[k].text)
  }

  lemma TextsAppend(a: seq<Span>, b: seq<Span>)
    ensures TextsOf(a + b) == TextsOf(a) + TextsOf(b)
  {
  }

  function Alone(x: string, keep: string -> bool): seq<string> {
    Only(x, keep(x))
  }

  lemma FilterLast(s: seq<string>, x: string, keep: string -> bool)
    ensures Filter(s + [x], keep) == Filter(s, keep) + Alone(x, keep)
  {
    assert (s + [x])[..|s|] == s;
  }

  lemma {:induction false} FilterFirst(x: string, rest: seq<string>, keep: string -> bool)
    ensures Filter([x] + rest, keep) == Alone(x, keep) + Filter(rest, keep)
  {
    hide Filter, Alone;
    NothingKept(keep);
    if rest == [] {
      FilterLast([], x, keep);
      assert [x] + rest == [] + [x];
    } else {
      var n := |rest| - 1;
      var init, last := rest[..n], rest[n];
      FilterFirst(x, init, keep);
      FilterLast(init, last, keep);
      FilterLast([x] + init, last, keep);
      assert rest == init + [last] && [x] + rest == ([x] + init) + [last];
      Assoc(Alone(x, keep), Filter(init, keep), Alone(last, keep));
    }
  }

  lemma NothingKept(keep: string -> bool)
    ensures Filter([], keep) == []
  {
  }

  lemma {:induction false} UnitsFrom(rules: Rules, b: BlockValue, owners: seq<nat>, aligned: bool, pieces: seq<string>,
                                     position: nat)
    requires Shaped(b) && (aligned ==> position + WordCount(pieces) <= |owners|)
    ensures TextsOf(SpansFrom(rules, b, owners, aligned, pieces, position)) == Filter(TidiedAll(pieces), rules.hasWord)
  {
    hide Shaped, FirstLine, LastLine, WordsOf, Join, Filter;
    if pieces == [] {
      assert TidiedAll(pieces) == [];
      NothingKept(rules.hasWord);
    } else {
      var next := position + |WordsOf(pieces[0])|;
      UnitsFrom(rules, b, owners, aligned, pieces[1..], next);
      var span := SpanOf(b, owners, aligned, pieces[0], position);
      var own := Only(span, rules.hasWord(span.text));
      TextsAppend(own, SpansFrom(rules, b, owners, aligned, pieces[1..], next));
      assert TextsOf(own) == Alone(span.text, rules.hasWord);
      assert TidiedAll(pieces) == [Tidied(pieces[0])] + TidiedAll(pieces[1..]);
      FilterFirst(Tidied(pieces[0]), TidiedAll(pieces[1..]), rules.hasWord);
    }
  }

  lemma {:induction false} LinesFrom(rules: Rules, b: BlockValue, owners: seq<nat>, aligned: bool, pieces: seq<string>,
                                     position: nat)
    requires Shaped(b) && (aligned ==> position + WordCount(pieces) <= |owners|)
    ensures forall s :: s in SpansFrom(rules, b, owners, aligned, pieces, position) ==>
              s.line == b.line && (!aligned ==> s.first == FirstLine(b) && s.last == LastLine(b))
  {
    hide Shaped, FirstLine, LastLine, WordsOf, Join;
    if pieces != [] {
      LinesFrom(rules, b, owners, aligned, pieces[1..], position + |WordsOf(pieces[0])|);
    }
  }

  /** A block's units are exactly those of its pieces that have a letter or digit, in order, at the
      block's line; where its words do not align, each spans the whole block. */
  lemma UnitsAreThePieces(rules: Rules, b: BlockValue)
    requires Shaped(b)
    ensures var spans := BlockSpans(rules, b);
            && TextsOf(spans) == Filter(TidiedAll(Pieces(rules, b)), rules.hasWord)
            && (forall s :: s in spans ==> s.line == b.line)
            && (|Owners(rules, b)| != |AllWords(Pieces(rules, b))| ==>
                  forall s :: s in spans ==> s.first == b.parts[0].0 && s.last == b.parts[|b.parts| - 1].0)
  {
    var pieces, owners := Pieces(rules, b), Owners(rules, b);
    UnitsFrom(rules, b, owners, |owners| == WordCount(pieces), pieces, 0);
    LinesFrom(rules, b, owners, |owners| == WordCount(pieces), pieces, 0);
  }

  /** The same of any one cut of a joined block's text. */
  lemma UnitsAreTheCut(rules: Rules, b: BlockValue, pieces: seq<string>)
    requires Shaped(b) && Joinable(b.kind) && IsCut(Joined(rules, b), pieces)
    ensures TextsOf(BlockSpans(rules, b)) == Filter(TidiedAll(pieces), rules.hasWord)
  {
    hide IsCut, Joined, TextsOf, BlockSpans, Filter, TidiedAll;
    SentencesAre(Joined(rules, b), pieces);
    UnitsAreThePieces(rules, b);
  }

  // --- Which lines ---

  /** The piece's span by how many words stand before it. */
  predicate SpanIs(b: BlockValue, owners: seq<nat>, pieces: seq<string>, position: nat, m: nat, s: Span)
    requires m < |pieces| && position + WordCount(pieces) <= |owners|
  {
    var from := position + WordCount(pieces[..m]);
    var to := from + |WordsOf(pieces[m])|;
    from < to <= |owners| && s == Span(Tidied(pieces[m]), b.line, owners[from], owners[to - 1])
  }

  lemma CountFirst(pieces: seq<string>, m: nat)
    requires m < |pieces|
    ensures WordCount(pieces[..m + 1]) == |WordsOf(pieces[0])| + WordCount(pieces[1..][..m])
    ensures WordCount(pieces) == |WordsOf(pieces[0])| + WordCount(pieces[1..])
  {
    hide WordsOf;
    assert pieces[..m + 1][1..] == pieces[1..][..m];
  }

  lemma {:induction false} AlignedFrom(rules: Rules, b: BlockValue, owners: seq<nat>, pieces: seq<string>,
                                       position: nat, s: Span) returns (m: nat)
    requires Proper(rules) && Shaped(b) && position + WordCount(pieces) <= |owners|
    requires s in SpansFrom(rules, b, owners, true, pieces, position)
    ensures m < |pieces| && SpanIs(b, owners, pieces, position, m, s)
  {
    hide Shaped, WordsOf, Join;
    var words := WordsOf(pieces[0]);
    CountFirst(pieces, 0);
    var span := SpanOf(b, owners, true, pieces[0], position);
    if s == span && rules.hasWord(span.text) {
      m := 0;
      assert pieces[..0] == [];
      NoWords();
    } else {
      var n := AlignedFrom(rules, b, owners, pieces[1..], position + |words|, s);
      m := n + 1;
      CountFirst(pieces, n);
    }
  }

  lemma NoWords()
    ensures WordCount([]) == 0 && Join([], ' ') == ""
  {
  }

  /** Where the words align, each unit spans from the line of its first word to that of its last,
      by how many words stand before it in the block. */
  lemma AlignedUnits(rules: Rules, b: BlockValue, s: Span) returns (m: nat)
    requires Proper(rules) && Shaped(b) && |Owners(rules, b)| == WordCount(Pieces(rules, b))
    requires s in BlockSpans(rules, b)
    ensures m < |Pieces(rules, b)| && SpanIs(b, Owners(rules, b), Pieces(rules, b), 0, m, s)
  {
    m := AlignedFrom(rules, b, Owners(rules, b), Pieces(rules, b), 0, s);
  }

  function Copies(line: nat, n: nat): seq<nat> {
    seq(n, _ => line)
  }

  lemma {:induction false} CountCopies(line: nat, n: nat, other: nat)
    ensures multiset(Copies(line, n))[other] == if other == line then n else 0
  {
    if n > 0 {
      CountCopies(line, n - 1, other);
      assert Copies(line, n) == Copies(line, n - 1) + [line];
    }
  }

  /** As many of a block's words are owned by a line as normalising that line leaves. */
  lemma {:induction false} OwnersAre(rules: Rules, kind: Kind, parts: seq<(nat, string)>, k: nat)
    requires k < |parts| && Increasing(PartLines(parts))
    ensures var (line, text) := parts[k];
            multiset(Tags(AllTagged(rules, kind, parts)))[line]
            == |WordsOf(rules.normalise(if kind.Html? then rules.stripTags(text) else text))|
  {
    hide Tagged, WordsOf, Tags;
    var n := |parts| - 1;
    var (line, text) := parts[n];
    var init := AllTagged(rules, kind, parts[..n]);
    TagsAppend(init, Tagged(rules, kind, parts[n]));
    TagsOfOne(rules, kind, parts[n]);
    var own := |WordsOf(rules.normalise(Tidy(rules, kind, text)))|;
    assert Tags(Tagged(rules, kind, parts[n])) == Copies(line, own);
    CountCopies(line, own, parts[k].0);
    assert PartLines(parts)[k] == parts[k].0 && PartLines(parts)[n] == line;
    assert PartLines(parts[..n]) == PartLines(parts)[..n];
    if k < n {
      OwnersAre(rules, kind, parts[..n], k);
    } else {
      NotOwned(rules, kind, parts[..n], line);
    }
  }

  lemma {:induction false} NotOwned(rules: Rules, kind: Kind, parts: seq<(nat, string)>, line: nat)
    requires forall k :: 0 <= k < |parts| ==> PartLines(parts)[k] < line
    ensures multiset(Tags(AllTagged(rules, kind, parts)))[line] == 0
  {
    hide Tagged, WordsOf, Tags;
    if parts == [] {
      assert Tags([]) == [] by { NoTags(); }
    } else {
      var n := |parts| - 1;
      var own := |WordsOf(rules.normalise(Tidy(rules, kind, parts[n].1)))|;
      TagsAppend(AllTagged(rules, kind, parts[..n]), Tagged(rules, kind, parts[n]));
      TagsOfOne(rules, kind, parts[n]);
      assert Tags(Tagged(rules, kind, parts[n])) == Copies(parts[n].0, own);
      CountCopies(parts[n].0, own, line);
      assert PartLines(parts[..n]) == PartLines(parts)[..n];
      assert PartLines(parts)[n] == parts[n].0;
      NotOwned(rules, kind, parts[..n], line);
    }
  }

  lemma NoTags()
    ensures Tags([]) == []
  {
  }

  // --- Markup that keeps words ---

  /** Normalising keeps a text's words, as where there is no markup. */
  ghost predicate KeepsWords(rules: Rules) {
    forall s :: WordsOf(rules.normalise(s)) == WordsOf(s)
  }

  lemma {:induction false} WordsOfLines(parts: seq<(nat, string)>)
    ensures WordsOf(Join(UnitLines.Texts(parts), ' ')) == AllWords(UnitLines.Texts(parts))
  {
    hide WordsOf;
    var texts := UnitLines.Texts(parts);
    if parts == [] {
      NoWordsIn();
    } else if |parts| == 1 {
      assert texts == [parts[0].1] && texts[1..] == [];
      assert WordsOf(texts[0]) + [] == WordsOf(texts[0]);
    } else {
      WordsOfLines(parts[1..]);
      assert texts[1..] == UnitLines.Texts(parts[1..]);
      JoinMore(texts[0], texts[1..]);
      assert texts == [texts[0]] + texts[1..];
      BlankIsSpace();
      WordsAcross(texts[0], ' ', Join(texts[1..], ' '));
    }
  }

  lemma BlankIsSpace()
    ensures IsSpace(' ')
  {
  }

  lemma NoWordsIn()
    ensures WordsOf("") == []
  {
  }

  lemma {:induction false} NamesAre(rules: Rules, kind: Kind, parts: seq<(nat, string)>)
    requires KeepsWords(rules) && !kind.Html?
    ensures Names(AllTagged(rules, kind, parts)) == AllWords(UnitLines.Texts(parts))
  {
    hide WordsOf, KeepsWords;
    if parts != [] {
      var n := |parts| - 1;
      NamesAre(rules, kind, parts[..n]);
      var texts := UnitLines.Texts(parts);
      assert texts == UnitLines.Texts(parts[..n]) + [parts[n].1];
      AllWordsAppend(UnitLines.Texts(parts[..n]), parts[n].1);
      assert WordsOf(rules.normalise(parts[n].1)) == WordsOf(parts[n].1) by { Kept(rules, parts[n].1); }
      NamesAppend(AllTagged(rules, kind, parts[..n]), Tagged(rules, kind, parts[n]));
      assert Names(Tagged(rules, kind, parts[n])) == WordsOf(parts[n].1);
    }
  }

  lemma Kept(rules: Rules, s: string)
    requires KeepsWords(rules)
    ensures WordsOf(rules.normalise(s)) == WordsOf(s)
  {
  }

  lemma NamesAppend(a: seq<(string, nat)>, b: seq<(string, nat)>)
    ensures Names(a + b) == Names(a) + Names(b)
  {
  }

  lemma {:induction false} AllWordsAppend(pieces: seq<string>, last: string)
    ensures AllWords(pieces + [last]) == AllWords(pieces) + WordsOf(last)
  {
    hide WordsOf;
    if pieces == [] {
      assert [last][1..] == [] && [] + [last] == [last];
      assert WordsOf(last) + [] == [] + WordsOf(last);
    } else {
      AllWordsAppend(pieces[1..], last);
      assert (pieces + [last])[1..] == pieces[1..] + [last];
      Assoc(WordsOf(pieces[0]), AllWords(pieces[1..]), WordsOf(last));
    }
  }

  /** There every unit of a paragraph or list item has exactly the words that stand on its lines,
      from its first one on the first line to its last one on the last. */
  lemma PlainUnitsAreExact(rules: Rules, b: BlockValue)
    requires Proper(rules) && KeepsWords(rules) && Shaped(b) && (b.kind.Para? || b.kind.List?)
    ensures WordsOf(Joined(rules, b)) == AllWords(UnitLines.Texts(b.parts))
    ensures forall s :: s in BlockSpans(rules, b) ==> Exact(s, AllTagged(rules, b.kind, b.parts))
  {
    hide WordsOf, KeepsWords, AllTagged, Exact, BlockSpans, AllWords, Names, UnitLines.Texts;
    Kept(rules, Join(UnitLines.Texts(b.parts), ' '));
    WordsOfLines(b.parts);
    NamesAre(rules, b.kind, b.parts);
    SpansAreExact(rules, b);
  }
}
