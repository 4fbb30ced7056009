/** What becomes of each line of a page: the block it begins, goes on with or is, or none. */
module LineFates {
  import opened Wrappers
  import opened LineSyntax
  import opened Blocks
  import opened BlockOrder
  import opened FenceUnits
  import LineShapes

  // --- Tables ---

  /** A line's part in a table: its header, the separator below that, or a line of cells. */
  datatype TableRole = Outside | Header | Separator | Cells

  /** A line of text as far as the tests above the one for tables go. */
  predicate IsOrdinary(syntax: Syntax, raw: string) {
    Body(raw) != "" && !IsHash(raw) && syntax.opener(Body(raw)).None? && !syntax.reference(Body(raw))
  }

  /** A table begins with a line with a pipe above a separator and goes on while lines have pipes. */
  function RoleAt(syntax: Syntax, lines: seq<string>, k: nat): TableRole
    requires k < |lines|
  {
    var above := if k == 0 then Outside else RoleAt(syntax, lines, k - 1);
    if above.Header? then Separator
    else if (above.Separator? || above.Cells?) && HasPipe(Body(lines[k])) then Cells
    else if IsOrdinary(syntax, lines[k]) && HasPipe(Body(lines[k]))
            && k + 1 < |lines| && '|' in Body(lines[k + 1]) && syntax.separator(Body(lines[k + 1])) then Header
    else Outside
  }

  // --- Pieces of blocks ---

  /** One part of one block: the block's kind, line and depth, the part's place in it, and the
      part's own line and text. */
  datatype Piece = Piece(kind: Kind, line: nat, depth: nat, at: nat, number: nat, text: string)

  function PieceOf(b: BlockValue, m: nat): Piece
    requires m < |b.parts|
  {
    Piece(b.kind, b.line, b.depth, m, b.parts[m].0, b.parts[m].1)
  }

  function PiecesOf(blocks: seq<BlockValue>): set<Piece> {
    set n, m | 0 <= n < |blocks| && 0 <= m < |blocks[n].parts| :: PieceOf(blocks[n], m)
  }

  // --- Fates ---

  predicate IsPlain(syntax: Syntax, raw: string) {
    IsOrdinary(syntax, raw) && !IsBreak(Body(raw)) && ListMarker(Body(raw)).None? && !StartsHtml(Body(raw))
  }

  /** No part is on the line. */
  predicate FeedsNone(pieces: set<Piece>, number: nat) {
    forall p :: p in pieces ==> p.number != number
  }

  /** No block that may grow has a part at this depth on the line. */
  predicate NoneAbove(pieces: set<Piece>, number: nat, depth: nat) {
    forall p :: p in pieces && p.number == number && Joinable(p.kind) ==> p.depth != depth
  }

  predicate Begins(pieces: set<Piece>, kind: Kind, raw: string, number: nat, text: string) {
    Piece(kind, number, Depth(raw), 0, number, text) in pieces
  }

  /** The part before this one of its block is on the line above. */
  predicate GoesOn(pieces: set<Piece>, p: Piece) {
    exists q :: q in pieces && p.at == q.at + 1 && p.number == q.number + 1
                && q.kind == p.kind && q.line == p.line && q.depth == p.depth
  }

  /** The line is one of a growing block's: the next of the block right above it at its own depth,
      or the first of a paragraph where there is none. */
  predicate Flows(pieces: set<Piece>, raw: string, number: nat) {
    exists p :: p in pieces && IsFlow(pieces, raw, number, p)
  }

  predicate IsFlow(pieces: set<Piece>, raw: string, number: nat, p: Piece) {
    && p.number == number && p.text == Body(raw) && p.depth == Depth(raw) && Joinable(p.kind) && number > 0
    && if p.at == 0 then p.kind.Para? && p.line == number && NoneAbove(pieces, number - 1, p.depth)
       else GoesOn(pieces, p)
  }

  predicate IsUnderlineAt(syntax: Syntax, lines: seq<string>, k: nat) {
    k < |lines| && RoleAt(syntax, lines, k).Outside? && IsOrdinary(syntax, lines[k]) && IsUnderline(Body(lines[k]))
  }

  /** Line `k`, counted from 0, is a heading by the underline below it: a plain line that does not
      go on with a list item or an HTML block, at the underline's depth. */
  predicate IsSetext(syntax: Syntax, lines: seq<string>, pieces: set<Piece>, k: nat)
    requires k < |lines|
  {
    && IsUnderlineAt(syntax, lines, k + 1) && Depth(lines[k + 1]) == Depth(lines[k])
    && RoleAt(syntax, lines, k).Outside? && IsPlain(syntax, lines[k])
    && Begins(pieces, Heading, lines[k], k + 1, syntax.heading(Body(lines[k])))
    && forall p :: p in pieces && p.number == k && Joinable(p.kind) && p.depth == Depth(lines[k]) ==> p.kind.Para?
  }

  /** The line of text is what its own form makes it. */
  predicate OwnFate(syntax: Syntax, lines: seq<string>, pieces: set<Piece>, k: nat)
    requires k < |lines|
  {
    var raw, body := lines[k], Body(lines[k]);
    if IsBreak(body) then FeedsNone(pieces, k + 1)
    else match ListMarker(body)
      case Some(end) => Begins(pieces, List, raw, k + 1, body[end..])
      case None =>
        if StartsHtml(body) then Begins(pieces, Html, raw, k + 1, body)
        else IsSetext(syntax, lines, pieces, k) || Flows(pieces, raw, k + 1)
  }

  /** What becomes of line `k`, counted from 0. */
  predicate Fate(syntax: Syntax, lines: seq<string>, pieces: set<Piece>, k: nat)
    requires k < |lines|
  {
    var raw, body := lines[k], Body(lines[k]);
    match RoleAt(syntax, lines, k)
    case Header => Begins(pieces, Row, raw, k + 1, syntax.row(body))
    case Cells => Begins(pieces, Row, raw, k + 1, syntax.row(body))
    case Separator => FeedsNone(pieces, k + 1)
    case Outside =>
      if body == "" then FeedsNone(pieces, k + 1)
      else if IsHash(raw) then Begins(pieces, Heading, raw, k + 1, syntax.heading(body))
      else match syntax.opener(body)
        case Some(Some(title)) => Begins(pieces, Heading, raw, k + 1, title)
        case Some(None) => FeedsNone(pieces, k + 1)
        case None =>
          if syntax.reference(body) then FeedsNone(pieces, k + 1)
          else if IsUnderline(body) then
            if k > 0 && IsSetext(syntax, lines, pieces, k - 1) then FeedsNone(pieces, k + 1)
            else OwnFate(syntax, lines, pieces, k)
                 && forall p :: p in pieces && p.number == k && p.kind.Para? ==> p.depth != Depth(raw)
          else OwnFate(syntax, lines, pieces, k)
  }

  // --- A fate depends on the lines so far ---

  /** The same pieces up to a line. */
  ghost predicate AlikeUpTo(a: set<Piece>, b: set<Piece>, number: nat) {
    forall p: Piece :: p.number <= number ==> (p in a <==> p in b)
  }

  lemma FlowsAlike(a: set<Piece>, b: set<Piece>, raw: string, number: nat)
    requires AlikeUpTo(a, b, number) && Flows(a, raw, number)
    ensures Flows(b, raw, number)
  {
    hide Depth, Body;
    var p :| p in a && IsFlow(a, raw, number, p);
    if p.at != 0 {
      var q :| q in a && p.at == q.at + 1 && p.number == q.number + 1
               && q.kind == p.kind && q.line == p.line && q.depth == p.depth;
      assert q in b;
    }
    assert p in b && IsFlow(b, raw, number, p);
  }

  lemma SetextAlike(syntax: Syntax, lines: seq<string>, a: set<Piece>, b: set<Piece>, k: nat)
    requires k < |lines| && AlikeUpTo(a, b, k + 1)
    ensures IsSetext(syntax, lines, a, k) <==> IsSetext(syntax, lines, b, k)
  {
    hide Depth, Body, RoleAt, IsUnderlineAt, IsPlain;
  }

  lemma FateAlike(syntax: Syntax, lines: seq<string>, a: set<Piece>, b: set<Piece>, k: nat)
    requires k < |lines| && AlikeUpTo(a, b, k + 1) && Fate(syntax, lines, a, k)
    ensures Fate(syntax, lines, b, k)
  {
    hide Depth, Body, RoleAt, IsHash, IsUnderline, IsBreak, StartsHtml, ListMarker, IsSetext, Flows;
    SetextAlike(syntax, lines, a, b, k);
    if k > 0 {
      SetextAlike(syntax, lines, a, b, k - 1);
    }
    if Flows(a, lines[k], k + 1) {
      FlowsAlike(a, b, lines[k], k + 1);
    }
  }

  // --- What one turn does to the pieces ---

  lemma OneAdds(blocks: seq<BlockValue>, kind: Kind, number: nat, depth: nat, text: string)
    ensures PiecesOf(blocks + [One(kind, number, depth, text)])
            == PiecesOf(blocks) + {Piece(kind, number, depth, 0, number, text)}
  {
    BlockAdds(blocks, One(kind, number, depth, text));
    OwnPieces(One(kind, number, depth, text));
  }

  /** The pieces of one block. */
  function Own(b: BlockValue): set<Piece> {
    set m | 0 <= m < |b.parts| :: PieceOf(b, m)
  }

  lemma OwnPieces(b: BlockValue)
    requires |b.parts| == 1
    ensures Own(b) == {PieceOf(b, 0)}
  {
  }

  lemma BlockAdds(blocks: seq<BlockValue>, b: BlockValue)
    ensures PiecesOf(blocks + [b]) == PiecesOf(blocks) + Own(b)
  {
    var all := blocks + [b];
    forall p ensures p in PiecesOf(all) <==> p in PiecesOf(blocks) || p in Own(b) {
      if p in PiecesOf(all) {
        var n, m :| 0 <= n < |all| && 0 <= m < |all[n].parts| && p == PieceOf(all[n], m);
        assert n < |blocks| ==> all[n] == blocks[n];
      }
      if p in PiecesOf(blocks) {
        var n, m :| 0 <= n < |blocks| && 0 <= m < |blocks[n].parts| && p == PieceOf(blocks[n], m);
        assert all[n] == blocks[n];
      }
      if p in Own(b) {
        var m :| 0 <= m < |b.parts| && p == PieceOf(b, m);
        assert all[|blocks|] == b;
      }
    }
  }

  lemma PartAdds(b: BlockValue, part: (nat, string))
    ensures Own(b.(parts := b.parts + [part])) == Own(b) + {Piece(b.kind, b.line, b.depth, |b.parts|, part.0, part.1)}
  {
    var c := b.(parts := b.parts + [part]);
    forall p ensures p in Own(c) <==> p in Own(b) || p == PieceOf(c, |b.parts|) {
      if p in Own(c) {
        var m :| 0 <= m < |c.parts| && p == PieceOf(c, m);
        assert m < |b.parts| ==> PieceOf(c, m) == PieceOf(b, m);
      }
      if p in Own(b) {
        var m :| 0 <= m < |b.parts| && p == PieceOf(b, m);
        assert PieceOf(c, m) == PieceOf(b, m);
      }
    }
  }

  /** The open block's last piece. */
  function LastPiece(st: State): Piece
    requires st.open && ValidState(st)
  {
    PieceOf(Last(st), |Last(st).parts| - 1)
  }

  lemma ExtendedAdds(st: State, number: nat, text: string)
    requires st.open && ValidState(st)
    ensures var last := Last(st);
            PiecesOf(Extended(st, number, text).blocks)
            == PiecesOf(st.blocks) + {Piece(last.kind, last.line, last.depth, |last.parts|, number, text)}
    ensures LastPiece(st) in PiecesOf(st.blocks)
  {
    hide PiecesOf, Own;
    var last, init := Last(st), st.blocks[..|st.blocks| - 1];
    assert st.blocks == init + [last];
    BlockAdds(init, last);
    BlockAdds(init, last.(parts := last.parts + [(number, text)]));
    PartAdds(last, (number, text));
    LastIsOwn(st);
  }

  lemma LastIsOwn(st: State)
    requires st.open && ValidState(st)
    ensures LastPiece(st) in Own(Last(st))
  {
  }

  lemma PieceIsFed(blocks: seq<BlockValue>, p: Piece)
    requires p in PiecesOf(blocks)
    ensures p.number in LinesOf(blocks)
  {
    var n, m :| 0 <= n < |blocks| && 0 <= m < |blocks[n].parts| && p == PieceOf(blocks[n], m);
    PartIsFed(blocks, n, m);
  }

  /** The pieces but for the last one are all on lines above it. */
  lemma OthersAbove(st: State, i: nat)
    requires st.open && ValidState(st) && UpTo(LinesOf(st.blocks), i)
    ensures forall p :: p in PiecesOf(st.blocks) && p != LastPiece(st) ==> p.number < LastPiece(st).number
  {
    hide PiecesOf, Own, LinesOf, Increasing;
    var last, init := Last(st), st.blocks[..|st.blocks| - 1];
    var n := |last.parts| - 1;
    assert st.blocks == init + [last];
    BlockAdds(init, last);
    LinesOfAppend(init, last);
    forall p | p in PiecesOf(st.blocks) && p != LastPiece(st)
      ensures p.number < LastPiece(st).number
    {
      if p in PiecesOf(init) {
        PieceIsFed(init, p);
        FedBefore(LinesOf(init), PartLines(last.parts), p.number, n);
      } else {
        OwnIs(last, p);
        var m :| 0 <= m < |last.parts| && p == PieceOf(last, m);
        LaterPart(LinesOf(init), PartLines(last.parts), m, n);
      }
    }
  }

  lemma OwnIs(b: BlockValue, p: Piece)
    requires p in Own(b)
    ensures exists m :: 0 <= m < |b.parts| && p == PieceOf(b, m)
  {
  }

  lemma FedBefore(a: seq<nat>, b: seq<nat>, x: nat, n: nat)
    requires Increasing(a + b) && x in a && n < |b|
    ensures x < b[n]
  {
    var k :| 0 <= k < |a| && a[k] == x;
    assert (a + b)[k] == x && (a + b)[|a| + n] == b[n];
  }

  lemma LaterPart(a: seq<nat>, b: seq<nat>, m: nat, n: nat)
    requires Increasing(a + b) && m < n < |b|
    ensures b[m] < b[n]
  {
    assert (a + b)[|a| + m] == b[m] && (a + b)[|a| + n] == b[n];
  }

  lemma PartGoes(b: BlockValue)
    requires |b.parts| > 1
    ensures var n := |b.parts| - 1;
            Own(b) == Own(b.(parts := b.parts[..n])) + {PieceOf(b, n)}
  {
    var n := |b.parts| - 1;
    assert b.parts == b.parts[..n] + [b.parts[n]];
    PartAdds(b.(parts := b.parts[..n]), b.parts[n]);
  }

  /** The underlined line's piece is a heading's instead. */
  lemma UnderlinedAdds(syntax: Syntax, st: State, i: nat)
    requires st.open && ValidState(st) && UpTo(LinesOf(st.blocks), i)
    ensures var p := LastPiece(st);
            PiecesOf(Underlined(syntax, st).blocks)
            == (PiecesOf(st.blocks) - {p}) + {Piece(Heading, p.number, p.depth, 0, p.number, syntax.heading(p.text))}
  {
    hide PiecesOf, Own;
    var last, init := Last(st), st.blocks[..|st.blocks| - 1];
    var n, p := |last.parts| - 1, LastPiece(st);
    assert st.blocks == init + [last];
    BlockAdds(init, last);
    OneAdds(Shortened(st), Heading, p.number, p.depth, syntax.heading(p.text));
    OthersAbove(st, i);
    if n == 0 {
      OwnPieces(last);
      assert p !in PiecesOf(init) by { NotBefore(st, i); }
    } else {
      PartGoes(last);
      BlockAdds(init, last.(parts := last.parts[..n]));
      assert p !in PiecesOf(init) by { NotBefore(st, i); }
      NotTwice(last);
    }
  }

  lemma NotTwice(b: BlockValue)
    requires b.parts != []
    ensures var n := |b.parts| - 1;
            PieceOf(b, n) !in Own(b.(parts := b.parts[..n]))
  {
  }

  lemma NotBefore(st: State, i: nat)
    requires st.open && ValidState(st) && UpTo(LinesOf(st.blocks), i)
    ensures LastPiece(st) !in PiecesOf(st.blocks[..|st.blocks| - 1])
  {
    hide PiecesOf;
    var last, init, p := Last(st), st.blocks[..|st.blocks| - 1], LastPiece(st);
    assert st.blocks == init + [last];
    assert LinesOf(st.blocks) == LinesOf(init) + PartLines(last.parts);
    if p in PiecesOf(init) {
      PieceIsFed(init, p);
      FedBefore(LinesOf(init), PartLines(last.parts), p.number, |last.parts| - 1);
    }
  }

  // --- What every turn keeps ---

  /** The lines read end a table or not as the state says, and end no header. */
  predicate TableAt(syntax: Syntax, lines: seq<string>, i: nat, inTable: bool)
    requires i <= |lines|
  {
    var above := if i == 0 then Outside else RoleAt(syntax, lines, i - 1);
    !above.Header? && (inTable <==> above.Separator? || above.Cells?)
  }

  predicate PlainAt(syntax: Syntax, lines: seq<string>, k: nat)
    requires k < |lines|
  {
    RoleAt(syntax, lines, k).Outside? && IsPlain(syntax, lines[k])
  }

  /** A paragraph's parts are plain lines; a heading on one was underlined before line `i`. */
  predicate Kinds(syntax: Syntax, lines: seq<string>, pieces: set<Piece>, i: nat) {
    && (forall p :: p in pieces ==> 1 <= p.number <= i && p.number <= |lines|)
    && (forall p :: p in pieces && p.kind.Para? ==>
          var raw := lines[p.number - 1];
          PlainAt(syntax, lines, p.number - 1) && p.text == Body(raw) && p.depth == Depth(raw))
    && (forall p :: p in pieces && p.kind.Heading? ==> p.number < i || !PlainAt(syntax, lines, p.number - 1))
  }

  /** A block that may grow and has a part on the last line read is the open one. */
  predicate OpenAt(st: State, i: nat)
    requires ValidState(st)
  {
    forall p :: p in PiecesOf(st.blocks) && p.number == i && Joinable(p.kind) ==> st.open && p == LastPiece(st)
  }

  predicate FatesUpTo(syntax: Syntax, lines: seq<string>, pieces: set<Piece>, i: nat)
    requires i <= |lines|
  {
    forall k :: 0 <= k < i ==> Fate(syntax, lines, pieces, k)
  }

  predicate Kept(syntax: Syntax, lines: seq<string>, i: nat, st: State) {
    && i <= |lines| && ValidState(st) && UpTo(LinesOf(st.blocks), i) && Follows(st, i)
    && TableAt(syntax, lines, i, st.inTable) && OpenAt(st, i)
    && Kinds(syntax, lines, PiecesOf(st.blocks), i)
    && FatesUpTo(syntax, lines, PiecesOf(st.blocks), i)
  }

  lemma MoreFates(syntax: Syntax, lines: seq<string>, a: set<Piece>, b: set<Piece>, i: nat, j: nat)
    requires i <= j <= |lines| && FatesUpTo(syntax, lines, a, i) && AlikeUpTo(a, b, i)
    requires forall k :: i <= k < j ==> Fate(syntax, lines, b, k)
    ensures FatesUpTo(syntax, lines, b, j)
  {
    hide Fate, AlikeUpTo;
    forall k | 0 <= k < j ensures Fate(syntax, lines, b, k) {
      if k < i {
        assert AlikeUpTo(a, b, k + 1) by { AlikeSooner(a, b, k + 1, i); }
        FateAlike(syntax, lines, a, b, k);
      }
    }
  }

  lemma AlikeSooner(a: set<Piece>, b: set<Piece>, n: nat, i: nat)
    requires AlikeUpTo(a, b, i) && n <= i
    ensures AlikeUpTo(a, b, n)
  {
  }

  // --- Roles ---

  lemma PipeIsNoRule(body: string)
    requires HasPipe(body)
    ensures !IsUnderline(body) && !IsBreak(body)
  {
    hide IsUnderline, IsBreak;
    LineShapes.BreakIs(body);
    assert '|' in body;
    if IsUnderline(body) {
      var marks, blanks := LineShapes.UnderlineLeaves(body);
      NoPipeInRule(body, marks, blanks);
    }
  }

  lemma NoPipeInRule(body: string, marks: string, blanks: string)
    requires LineShapes.IsRuled(body, marks, blanks)
    ensures '|' !in body
  {
  }

  /** The role of the line read. */
  lemma RoleOfLine(syntax: Syntax, lines: seq<string>, i: nat, inTable: bool)
    requires i < |lines| && TableAt(syntax, lines, i, inTable)
    ensures var raw, body := lines[i], Body(lines[i]);
            RoleAt(syntax, lines, i) ==
            if inTable && HasPipe(body) then Cells
            else if IsOrdinary(syntax, raw) && StartsTable(syntax, lines, i) then Header else Outside
    ensures RoleAt(syntax, lines, i).Header? ==> RoleAt(syntax, lines, i + 1).Separator?
  {
    hide Body, HasPipe, IsHash;
  }

  // --- One turn ---

  /** The new piece stands for line `i`, as its kind allows. */
  predicate Fits(syntax: Syntax, lines: seq<string>, i: nat, p: Piece)
    requires i < |lines|
  {
    && p.number == i + 1
    && (p.kind.Para? ==> PlainAt(syntax, lines, i) && p.text == Body(lines[i]) && p.depth == Depth(lines[i]))
    && (p.kind.Heading? ==> !PlainAt(syntax, lines, i))
  }

  lemma OneMorePiece(syntax: Syntax, lines: seq<string>, a: set<Piece>, i: nat, p: Piece, j: nat)
    requires i < j <= |lines| && Kinds(syntax, lines, a, i) && Fits(syntax, lines, i, p)
    ensures AlikeUpTo(a, a + {p}, i) && Kinds(syntax, lines, a + {p}, j) && FeedsNone(a + {p}, i + 2)
    ensures forall q :: q in a + {p} && q.number == i + 1 ==> q == p
  {
    hide PlainAt, Body, Depth;
  }

  lemma SamePieces(syntax: Syntax, lines: seq<string>, a: set<Piece>, i: nat)
    requires i < |lines| && Kinds(syntax, lines, a, i)
    ensures AlikeUpTo(a, a, i) && Kinds(syntax, lines, a, i + 1) && FeedsNone(a, i + 1)
  {
    hide PlainAt, Body, Depth;
  }

  lemma NoneOpen(st: State, number: nat)
    requires ValidState(st)
    requires forall p :: p in PiecesOf(st.blocks) && p.number == number ==> !Joinable(p.kind)
    ensures OpenAt(st, number)
  {
    hide PiecesOf;
  }

  lemma LastOpen(st: State, number: nat)
    requires ValidState(st) && st.open
    requires forall p :: p in PiecesOf(st.blocks) && p.number == number ==> p == LastPiece(st)
    ensures OpenAt(st, number)
  {
    hide PiecesOf;
  }

  lemma QuietTurn(syntax: Syntax, lines: seq<string>, i: nat, st: State)
    requires i < |lines| && Kept(syntax, lines, i, st) && RoleAt(syntax, lines, i).Outside?
    requires FeedsNone(PiecesOf(st.blocks), i + 1) ==> Fate(syntax, lines, PiecesOf(st.blocks), i)
    ensures Kept(syntax, lines, i + 1, Close(st))
  {
    hide Fate, RoleAt, Kinds, LinesOf, PiecesOf, AllUnbroken, AlikeUpTo, OpenAt, FatesUpTo;
    SamePieces(syntax, lines, PiecesOf(st.blocks), i);
    NoneOpen(Close(st), i + 1);
    MoreFates(syntax, lines, PiecesOf(st.blocks), PiecesOf(st.blocks), i, i + 1);
  }

  /** A block of one line, and the separator below it when it starts a table. */
  lemma SingleTurn(syntax: Syntax, lines: seq<string>, i: nat, st: State, kind: Kind, text: string, j: nat)
    requires i < j <= |lines| && j <= i + 2 && Kept(syntax, lines, i, st) && !Joinable(kind)
    requires var next := Single(st, kind, i + 1, Depth(lines[i]), text);
             && UpTo(LinesOf(next.blocks), j) && Follows(next, j) && TableAt(syntax, lines, j, next.inTable)
    requires kind.Heading? ==> !PlainAt(syntax, lines, i)
    requires j == i + 2 ==> RoleAt(syntax, lines, i + 1).Separator?
    requires var p := Piece(kind, i + 1, Depth(lines[i]), 0, i + 1, text);
             Fate(syntax, lines, PiecesOf(st.blocks) + {p}, i)
    ensures Kept(syntax, lines, j, Single(st, kind, i + 1, Depth(lines[i]), text))
  {
    hide Follows, RoleAt, PlainAt, LinesOf, PiecesOf, UpTo, TableAt, Body, Depth, Kinds, AlikeUpTo, OpenAt, Fate;
    hide FeedsNone, FatesUpTo;
    var next := Single(st, kind, i + 1, Depth(lines[i]), text);
    var a, b := PiecesOf(st.blocks), PiecesOf(next.blocks);
    var p := Piece(kind, i + 1, Depth(lines[i]), 0, i + 1, text);
    OneAdds(st.blocks, kind, i + 1, Depth(lines[i]), text);
    OneMorePiece(syntax, lines, a, i, p, j);
    if j == i + 2 {
      SeparatorFate(syntax, lines, b, i + 1);
      NumbersUpTo(b, j);
    }
    NoneOpen(next, j);
    MoreFates(syntax, lines, a, b, i, j);
  }

  lemma SeparatorFate(syntax: Syntax, lines: seq<string>, pieces: set<Piece>, k: nat)
    requires k < |lines| && RoleAt(syntax, lines, k).Separator? && FeedsNone(pieces, k + 1)
    ensures Fate(syntax, lines, pieces, k)
  {
    hide Body, Depth, RoleAt;
  }

  lemma NumbersUpTo(pieces: set<Piece>, j: nat)
    requires FeedsNone(pieces, j)
    ensures forall p :: p in pieces ==> p.number != j
  {
  }

  lemma OpenedTurn(syntax: Syntax, lines: seq<string>, i: nat, st: State, kind: Kind, text: string)
    requires i < |lines| && Kept(syntax, lines, i, st) && Joinable(kind) && RoleAt(syntax, lines, i).Outside?
    requires var next := Opened(st, kind, i + 1, Depth(lines[i]), text);
             && UpTo(LinesOf(next.blocks), i + 1) && Follows(next, i + 1) && ValidState(next)
    requires var p := Piece(kind, i + 1, Depth(lines[i]), 0, i + 1, text);
             Fits(syntax, lines, i, p) && Fate(syntax, lines, PiecesOf(st.blocks) + {p}, i)
    ensures Kept(syntax, lines, i + 1, Opened(st, kind, i + 1, Depth(lines[i]), text))
  {
    hide Fate, Follows, RoleAt, LinesOf, PiecesOf, UpTo, Fits, Body, Depth, Kinds, AlikeUpTo, OpenAt, FatesUpTo;
    var next := Opened(st, kind, i + 1, Depth(lines[i]), text);
    var a, b := PiecesOf(st.blocks), PiecesOf(next.blocks);
    var p := Piece(kind, i + 1, Depth(lines[i]), 0, i + 1, text);
    OneAdds(st.blocks, kind, i + 1, Depth(lines[i]), text);
    OneMorePiece(syntax, lines, a, i, p, i + 1);
    LastOpen(next, i + 1);
    MoreFates(syntax, lines, a, b, i, i + 1);
  }

  lemma ExtendedTurn(syntax: Syntax, lines: seq<string>, i: nat, st: State)
    requires i < |lines| && Kept(syntax, lines, i, st) && PlainAt(syntax, lines, i)
    requires st.open && Last(st).depth == Depth(lines[i])
    requires var next := Extended(st, i + 1, Body(lines[i]));
             && UpTo(LinesOf(next.blocks), i + 1) && Follows(next, i + 1) && ValidState(next)
    requires var last := Last(st);
             var p := Piece(last.kind, last.line, last.depth, |last.parts|, i + 1, Body(lines[i]));
             Fate(syntax, lines, PiecesOf(st.blocks) + {p}, i)
    ensures Kept(syntax, lines, i + 1, Extended(st, i + 1, Body(lines[i])))
  {
    hide Fate, Follows, RoleAt, LinesOf, PiecesOf, UpTo, IsPlain, Body, Depth, Kinds, AlikeUpTo, OpenAt, FatesUpTo;
    var next, last := Extended(st, i + 1, Body(lines[i])), Last(st);
    var a, b := PiecesOf(st.blocks), PiecesOf(next.blocks);
    var p := Piece(last.kind, last.line, last.depth, |last.parts|, i + 1, Body(lines[i]));
    ExtendedAdds(st, i + 1, Body(lines[i]));
    OneMorePiece(syntax, lines, a, i, p, i + 1);
    LastOpen(next, i + 1);
    MoreFates(syntax, lines, a, b, i, i + 1);
  }

  // --- Underlines ---

  /** No two pieces are on one line. */
  lemma {:induction false} OneALine(blocks: seq<BlockValue>, p: Piece, q: Piece)
    requires Increasing(LinesOf(blocks)) && p in PiecesOf(blocks) && q in PiecesOf(blocks) && p.number == q.number
    ensures p == q
  {
    hide PiecesOf, Own, Increasing;
    var n := |blocks| - 1;
    if blocks == [] {
      NoPieces();
    } else {
      var init, last := blocks[..n], blocks[n];
      assert blocks == init + [last];
      BlockAdds(init, last);
      IncreasingInit(LinesOf(init), PartLines(last.parts));
      if p in PiecesOf(init) && q in PiecesOf(init) {
        OneALine(init, p, q);
      } else if p in PiecesOf(init) {
        InOrder(init, last, p, q);
      } else if q in PiecesOf(init) {
        InOrder(init, last, q, p);
      } else {
        OneInBlock(LinesOf(init), last, p, q);
      }
    }
  }

  lemma NoPieces()
    ensures PiecesOf([]) == {}
  {
  }

  lemma IncreasingInit(a: seq<nat>, b: seq<nat>)
    requires Increasing(a + b)
    ensures Increasing(a)
  {
    assert forall k :: 0 <= k < |a| ==> (a + b)[k] == a[k];
  }

  lemma InOrder(init: seq<BlockValue>, last: BlockValue, p: Piece, q: Piece)
    requires Increasing(LinesOf(init) + PartLines(last.parts)) && p in PiecesOf(init) && q in Own(last)
    ensures p.number < q.number
  {
    PieceIsFed(init, p);
    OwnIs(last, q);
    var m :| 0 <= m < |last.parts| && q == PieceOf(last, m);
    FedBefore(LinesOf(init), PartLines(last.parts), p.number, m);
  }

  lemma OneInBlock(before: seq<nat>, b: BlockValue, p: Piece, q: Piece)
    requires Increasing(before + PartLines(b.parts)) && p in Own(b) && q in Own(b) && p.number == q.number
    ensures p == q
  {
    OwnIs(b, p);
    OwnIs(b, q);
    var m :| 0 <= m < |b.parts| && p == PieceOf(b, m);
    var n :| 0 <= n < |b.parts| && q == PieceOf(b, n);
    if m < n {
      LaterPart(before, PartLines(b.parts), m, n);
    } else if n < m {
      LaterPart(before, PartLines(b.parts), n, m);
    }
  }

  /** What a plain line's fate comes to. */
  predicate PlainFate(syntax: Syntax, lines: seq<string>, pieces: set<Piece>, k: nat)
    requires k < |lines|
  {
    && (IsUnderline(Body(lines[k])) ==>
          && !(k > 0 && IsSetext(syntax, lines, pieces, k - 1))
          && forall p :: p in pieces && p.number == k && p.kind.Para? ==> p.depth != Depth(lines[k]))
    && (IsSetext(syntax, lines, pieces, k) || Flows(pieces, lines[k], k + 1))
  }

  lemma PlainFateIs(syntax: Syntax, lines: seq<string>, pieces: set<Piece>, k: nat)
    requires k < |lines| && PlainAt(syntax, lines, k)
    ensures PlainFate(syntax, lines, pieces, k) ==> Fate(syntax, lines, pieces, k)
    ensures Fate(syntax, lines, pieces, k) && !FeedsNone(pieces, k + 1) ==> PlainFate(syntax, lines, pieces, k)
  {
    hide RoleAt, Body, Depth, IsHash, IsUnderline, IsBreak, ListMarker, StartsHtml, IsSetext, Flows, FeedsNone;
  }

  /** The line above a paragraph's latest at its depth is the paragraph's too, if any block's. */
  lemma AboveIsPara(blocks: seq<BlockValue>, raw: string, number: nat, p: Piece)
    requires Increasing(LinesOf(blocks)) && p in PiecesOf(blocks) && p.number == number && p.kind.Para?
    requires Flows(PiecesOf(blocks), raw, number)
    ensures forall q :: q in PiecesOf(blocks) && q.number == number - 1 && Joinable(q.kind) && q.depth == p.depth
                        ==> q.kind.Para?
  {
    hide PiecesOf, Increasing, LinesOf, Body, Depth;
    var pieces := PiecesOf(blocks);
    var own :| own in pieces && IsFlow(pieces, raw, number, own);
    OneALine(blocks, p, own);
    forall q | q in pieces && q.number == number - 1 && Joinable(q.kind) && q.depth == p.depth
      ensures q.kind.Para?
    {
      if p.at != 0 {
        var above :| above in pieces && p.at == above.at + 1 && p.number == above.number + 1
                     && above.kind == p.kind && above.line == p.line && above.depth == p.depth;
        OneALine(blocks, q, above);
      }
    }
  }

  lemma NewHeading(a: set<Piece>, p: Piece, h: Piece)
    requires p in a && h.number == p.number && p.number > 0 && !Joinable(h.kind)
    requires forall q :: q in a && q != p ==> q.number < p.number
    ensures var b := (a - {p}) + {h};
            && AlikeUpTo(a, b, p.number - 1) && FeedsNone(b, p.number + 1) && h in b
            && forall q :: q in b && Joinable(q.kind) ==> q in a
  {
  }

  lemma HeadingKinds(syntax: Syntax, lines: seq<string>, a: set<Piece>, p: Piece, h: Piece, i: nat)
    requires Kinds(syntax, lines, a, i) && h.kind.Heading? && 1 <= h.number <= i < |lines|
    ensures Kinds(syntax, lines, (a - {p}) + {h}, i + 1)
  {
    hide PlainAt, Body, Depth;
  }

  /** The paragraph's last line is a heading now. */
  lemma HeadingFate(syntax: Syntax, lines: seq<string>, blocks: seq<BlockValue>, b: set<Piece>, i: nat, p: Piece)
    requires 0 < i < |lines| && Increasing(LinesOf(blocks)) && p in PiecesOf(blocks) && p.number == i && p.kind.Para?
    requires PlainAt(syntax, lines, i - 1) && p.text == Body(lines[i - 1]) && p.depth == Depth(lines[i - 1])
    requires Fate(syntax, lines, PiecesOf(blocks), i - 1) && AlikeUpTo(PiecesOf(blocks), b, i - 1)
    requires IsUnderlineAt(syntax, lines, i) && Depth(lines[i]) == p.depth
    requires Begins(b, Heading, lines[i - 1], i, syntax.heading(Body(lines[i - 1])))
    requires forall q :: q in b && Joinable(q.kind) ==> q in PiecesOf(blocks)
    ensures IsSetext(syntax, lines, b, i - 1) && Fate(syntax, lines, b, i - 1)
  {
    hide PiecesOf, Increasing, LinesOf, Body, Depth, RoleAt, Fate, Begins, Flows, IsUnderline, IsPlain, IsUnderlineAt;
    var a, k := PiecesOf(blocks), i - 1;
    PlainFateIs(syntax, lines, a, k);
    assert !FeedsNone(a, i);
    if IsSetext(syntax, lines, a, k) {
      BegunIsIn(a, lines[k], i, syntax.heading(Body(lines[k])));
      OneALine(blocks, p, Piece(Heading, i, Depth(lines[k]), 0, i, syntax.heading(Body(lines[k]))));
    }
    AboveIsPara(blocks, lines[k], i, p);
    assert IsSetext(syntax, lines, b, k);
    if k > 0 {
      SetextAlike(syntax, lines, a, b, k - 1);
    }
    PlainFateIs(syntax, lines, b, k);
  }

  lemma BegunIsIn(pieces: set<Piece>, raw: string, number: nat, text: string)
    requires Begins(pieces, Heading, raw, number, text)
    ensures Piece(Heading, number, Depth(raw), 0, number, text) in pieces
  {
  }

  lemma LastIsAt(syntax: Syntax, lines: seq<string>, i: nat, st: State)
    requires Kept(syntax, lines, i, st) && st.open && Last(st).kind.Para?
    ensures var p := LastPiece(st);
            && p in PiecesOf(st.blocks) && p.number == i && i > 0 && p.kind.Para? && p.depth == Last(st).depth
            && PlainAt(syntax, lines, i - 1) && p.text == Body(lines[i - 1]) && p.depth == Depth(lines[i - 1])
  {
    hide PiecesOf, LinesOf, Body, Depth, PlainAt, FatesUpTo, TableAt, UpTo, AllUnbroken;
    ExtendedAdds(st, i + 1, "");
  }

  lemma UnderlinedTurn(syntax: Syntax, lines: seq<string>, i: nat, st: State)
    requires i < |lines| && Kept(syntax, lines, i, st) && IsUnderlineAt(syntax, lines, i)
    requires st.open && Last(st).kind.Para? && Last(st).depth == Depth(lines[i])
    requires var next := Underlined(syntax, st); UpTo(LinesOf(next.blocks), i + 1) && Follows(next, i + 1)
    ensures Kept(syntax, lines, i + 1, Underlined(syntax, st))
  {
    hide Fate, Follows, RoleAt, LinesOf, PiecesOf, Increasing, IsPlain, Body, Depth, Kinds, AlikeUpTo, OpenAt;
    hide FatesUpTo;
    hide IsUnderline, FeedsNone, PlainAt, IsSetext, Begins, Shortened;
    var next, p := Underlined(syntax, st), LastPiece(st);
    var a, b := PiecesOf(st.blocks), PiecesOf(next.blocks);
    var h := Piece(Heading, p.number, p.depth, 0, p.number, syntax.heading(p.text));
    LastIsAt(syntax, lines, i, st);
    UnderlinedAdds(syntax, st, i);
    OthersAbove(st, i);
    NewHeading(a, p, h);
    HeadingKinds(syntax, lines, a, p, h, i);
    FatesSooner(syntax, lines, a, i);
    Begun(b, lines[i - 1], i, h);
    HeadingFate(syntax, lines, st.blocks, b, i, p);
    UnderlineFate(syntax, lines, b, i);
    MoreFates(syntax, lines, a, b, i - 1, i + 1);
    NumbersUpTo(b, i + 1);
    NoneOpen(next, i + 1);
  }

  lemma Begun(pieces: set<Piece>, raw: string, number: nat, h: Piece)
    requires h in pieces && h == Piece(Heading, number, Depth(raw), 0, number, h.text)
    ensures Begins(pieces, Heading, raw, number, h.text)
  {
  }

  lemma FatesSooner(syntax: Syntax, lines: seq<string>, a: set<Piece>, i: nat)
    requires 0 < i <= |lines| && FatesUpTo(syntax, lines, a, i)
    ensures FatesUpTo(syntax, lines, a, i - 1) && Fate(syntax, lines, a, i - 1)
  {
    hide Fate;
  }

  lemma UnderlineFate(syntax: Syntax, lines: seq<string>, b: set<Piece>, i: nat)
    requires 0 < i < |lines| && IsUnderlineAt(syntax, lines, i) && IsSetext(syntax, lines, b, i - 1)
    requires FeedsNone(b, i + 1)
    ensures Fate(syntax, lines, b, i)
  {
    hide RoleAt, Body, Depth, IsHash, IsUnderline, IsSetext, FeedsNone;
  }

  // --- The other lines of text ---

  /** An underline that is none: no paragraph at its depth is right above it. */
  predicate NoParaAbove(pieces: set<Piece>, number: nat, depth: nat) {
    forall p :: p in pieces && p.number == number && p.kind.Para? ==> p.depth != depth
  }

  lemma NotSetext(syntax: Syntax, lines: seq<string>, a: set<Piece>, b: set<Piece>, i: nat)
    requires 0 < i < |lines| && Kinds(syntax, lines, a, i) && AlikeUpTo(a, b, i)
    ensures !IsSetext(syntax, lines, b, i - 1)
  {
    hide RoleAt, Body, Depth, IsUnderlineAt, IsPlain;
    var h := Piece(Heading, i, Depth(lines[i - 1]), 0, i, syntax.heading(Body(lines[i - 1])));
    assert h in a <==> h in b;
    assert h in a ==> !PlainAt(syntax, lines, i - 1);
  }

  /** The fate of a line of text that does not underline the one above. */
  lemma TextFate(syntax: Syntax, lines: seq<string>, a: set<Piece>, b: set<Piece>, i: nat)
    requires i < |lines| && Kinds(syntax, lines, a, i) && AlikeUpTo(a, b, i)
    requires RoleAt(syntax, lines, i).Outside? && IsOrdinary(syntax, lines[i])
    requires IsUnderline(Body(lines[i])) ==> NoParaAbove(a, i, Depth(lines[i]))
    requires OwnFate(syntax, lines, b, i)
    ensures Fate(syntax, lines, b, i)
  {
    hide RoleAt, Body, Depth, IsHash, IsUnderline, IsSetext, OwnFate, Kinds;
    if i > 0 {
      NotSetext(syntax, lines, a, b, i);
    }
  }

  lemma NoPara(syntax: Syntax, lines: seq<string>, i: nat, st: State)
    requires i < |lines| && Kept(syntax, lines, i, st)
    requires !(st.open && Last(st).kind.Para? && Last(st).depth == Depth(lines[i]))
    ensures NoParaAbove(PiecesOf(st.blocks), i, Depth(lines[i]))
  {
    hide PiecesOf, LinesOf, Depth, Kinds, FatesUpTo, TableAt, UpTo, Follows;
  }

  lemma NothingAbove(syntax: Syntax, lines: seq<string>, i: nat, st: State)
    requires i < |lines| && Kept(syntax, lines, i, st)
    requires !(st.open && Last(st).depth == Depth(lines[i]))
    ensures NoneAbove(PiecesOf(st.blocks), i, Depth(lines[i]))
  {
    hide PiecesOf, LinesOf, Depth, Kinds, FatesUpTo, TableAt, UpTo, Follows;
  }

  lemma BeginsFlow(a: set<Piece>, raw: string, number: nat)
    requires number > 0 && NoneAbove(a, number - 1, Depth(raw))
    ensures Flows(a + {Piece(Para, number, Depth(raw), 0, number, Body(raw))}, raw, number)
  {
    hide Body, Depth;
    var p := Piece(Para, number, Depth(raw), 0, number, Body(raw));
    assert IsFlow(a + {p}, raw, number, p);
  }

  lemma GoesOnFlow(a: set<Piece>, raw: string, number: nat, q: Piece)
    requires number == q.number + 1 && q in a && Joinable(q.kind) && q.depth == Depth(raw)
    ensures Flows(a + {Piece(q.kind, q.line, q.depth, q.at + 1, number, Body(raw))}, raw, number)
  {
    hide Body, Depth;
    var p := Piece(q.kind, q.line, q.depth, q.at + 1, number, Body(raw));
    assert GoesOn(a + {p}, p);
    assert IsFlow(a + {p}, raw, number, p);
  }

  // --- Each turn ---

  /** What a turn leaves besides the fates. */
  predicate Turned(lines: seq<string>, next: State, j: nat) {
    ValidState(next) && j <= |lines| && UpTo(LinesOf(next.blocks), j) && Follows(next, j)
  }

  lemma StepTurned(syntax: Syntax, lines: seq<string>, i: nat, st: State)
    requires i < |lines| && Kept(syntax, lines, i, st)
    ensures var (next, j) := Step(syntax, lines, i, st); Turned(lines, next, j)
  {
    hide Step, MayBeDropped, LinesOf, ValidState, Kinds, OpenAt, FatesUpTo, TableAt, AllUnbroken;
    StepFeeds(syntax, lines, i, st);
    StepFollows(syntax, lines, i, st);
  }

  lemma OpenedText(syntax: Syntax, lines: seq<string>, i: nat, st: State, kind: Kind, text: string)
    requires i < |lines| && Kept(syntax, lines, i, st) && Joinable(kind)
    requires RoleAt(syntax, lines, i).Outside? && IsOrdinary(syntax, lines[i])
    requires IsUnderline(Body(lines[i])) ==> NoParaAbove(PiecesOf(st.blocks), i, Depth(lines[i]))
    requires Turned(lines, Opened(st, kind, i + 1, Depth(lines[i]), text), i + 1)
    requires kind.Para? ==> IsPlain(syntax, lines[i]) && text == Body(lines[i])
    requires OwnFate(syntax, lines,
                     PiecesOf(st.blocks) + {Piece(kind, i + 1, Depth(lines[i]), 0, i + 1, text)}, i)
    ensures Kept(syntax, lines, i + 1, Opened(st, kind, i + 1, Depth(lines[i]), text))
  {
    hide Fate, Follows, RoleAt, LinesOf, PiecesOf, UpTo, Body, Depth, Kinds, AlikeUpTo, OpenAt, FatesUpTo, OwnFate;
    hide IsUnderline, IsPlain, IsOrdinary, TableAt, NoParaAbove;
    var a, p := PiecesOf(st.blocks), Piece(kind, i + 1, Depth(lines[i]), 0, i + 1, text);
    OneMorePiece(syntax, lines, a, i, p, i + 1);
    TextFate(syntax, lines, a, a + {p}, i);
    OpenedTurn(syntax, lines, i, st, kind, text);
  }

  lemma BreakTurn(syntax: Syntax, lines: seq<string>, i: nat, st: State)
    requires i < |lines| && Kept(syntax, lines, i, st)
    requires RoleAt(syntax, lines, i).Outside? && IsOrdinary(syntax, lines[i]) && IsBreak(Body(lines[i]))
    requires IsUnderline(Body(lines[i])) ==> NoParaAbove(PiecesOf(st.blocks), i, Depth(lines[i]))
    ensures Kept(syntax, lines, i + 1, Close(st))
  {
    hide Fate, Follows, RoleAt, LinesOf, PiecesOf, UpTo, Body, Depth, Kinds, AlikeUpTo, OpenAt, FatesUpTo;
    hide IsUnderline, IsBreak, IsOrdinary, TableAt, NoParaAbove, FeedsNone;
    var a := PiecesOf(st.blocks);
    SamePieces(syntax, lines, a, i);
    TextFate(syntax, lines, a, a, i);
    QuietTurn(syntax, lines, i, st);
  }

  /** A plain line goes on with the open block at its depth, or begins a paragraph. */
  lemma PlainTurn(syntax: Syntax, lines: seq<string>, i: nat, st: State)
    requires i < |lines| && Kept(syntax, lines, i, st) && PlainAt(syntax, lines, i)
    requires IsUnderline(Body(lines[i])) ==> NoParaAbove(PiecesOf(st.blocks), i, Depth(lines[i]))
    requires var next := if st.open && Last(st).depth == Depth(lines[i]) then Extended(st, i + 1, Body(lines[i]))
                         else Opened(st, Para, i + 1, Depth(lines[i]), Body(lines[i]));
             Turned(lines, next, i + 1)
    ensures var next := if st.open && Last(st).depth == Depth(lines[i]) then Extended(st, i + 1, Body(lines[i]))
                        else Opened(st, Para, i + 1, Depth(lines[i]), Body(lines[i]));
            Kept(syntax, lines, i + 1, next)
  {
    hide Fate, Follows, RoleAt, LinesOf, PiecesOf, UpTo, Body, Depth, Kinds, AlikeUpTo, OpenAt, FatesUpTo, IsSetext;
    hide IsUnderline, IsOrdinary, TableAt, NoParaAbove, FeedsNone, Flows, IsBreak, ListMarker, StartsHtml, Extended;
    var a, raw := PiecesOf(st.blocks), lines[i];
    if st.open && Last(st).depth == Depth(raw) {
      var last := Last(st);
      var p := Piece(last.kind, last.line, last.depth, |last.parts|, i + 1, Body(raw));
      ExtendedAdds(st, i + 1, Body(raw));
      LastAt(syntax, lines, i, st);
      GoesOnFlow(a, raw, i + 1, LastPiece(st));
      OneMorePiece(syntax, lines, a, i, p, i + 1);
      TextFate(syntax, lines, a, a + {p}, i);
      ExtendedTurn(syntax, lines, i, st);
    } else {
      NothingAbove(syntax, lines, i, st);
      BeginsFlow(a, raw, i + 1);
      OpenedText(syntax, lines, i, st, Para, Body(raw));
    }
  }

  lemma LastAt(syntax: Syntax, lines: seq<string>, i: nat, st: State)
    requires Kept(syntax, lines, i, st) && st.open
    ensures LastPiece(st).number == i && Joinable(LastPiece(st).kind)
  {
    hide PiecesOf, LinesOf, Kinds, FatesUpTo, TableAt, UpTo, AllUnbroken, OpenAt;
  }

  lemma TextTurn(syntax: Syntax, lines: seq<string>, i: nat, st: State)
    requires i < |lines| && Kept(syntax, lines, i, st)
    requires RoleAt(syntax, lines, i).Outside? && IsOrdinary(syntax, lines[i]) && !StartsTable(syntax, lines, i)
    requires var (next, j) := TextStep(syntax, lines, i, st); Turned(lines, next, j)
    ensures var (next, j) := TextStep(syntax, lines, i, st); Kept(syntax, lines, j, next)
  {
    hide Fate, Follows, RoleAt, LinesOf, PiecesOf, UpTo, Body, Depth, Kinds, OpenAt, FatesUpTo, IsSetext;
    hide IsUnderline, TableAt, NoParaAbove, FeedsNone, Flows, IsBreak, ListMarker, StartsHtml, StartsTable;
    hide Opened, Extended, Underlined, IsHash, ValidState, Kept, Turned;
    var raw, body := lines[i], Body(lines[i]);
    KeptIsValid(syntax, lines, i, st);
    if IsUnderline(body) && st.open && Last(st).kind.Para? && Last(st).depth == Depth(raw) {
      TurnedIs(lines, Underlined(syntax, st), i + 1);
      UnderlinedTurn(syntax, lines, i, st);
    } else {
      if IsUnderline(body) {
        NoPara(syntax, lines, i, st);
      }
      if IsBreak(body) {
        BreakTurn(syntax, lines, i, st);
      } else if ListMarker(body).Some? {
        OpenedText(syntax, lines, i, st, List, body[ListMarker(body).value..]);
      } else if StartsHtml(body) {
        OpenedText(syntax, lines, i, st, Html, body);
      } else {
        PlainTurn(syntax, lines, i, st);
      }
    }
  }

  lemma KeptIsValid(syntax: Syntax, lines: seq<string>, i: nat, st: State)
    requires Kept(syntax, lines, i, st)
    ensures ValidState(st) && TableAt(syntax, lines, i, st.inTable)
  {
    hide TableAt, ValidState, UpTo, LinesOf, OpenAt, Kinds, FatesUpTo, PiecesOf, Follows;
  }

  lemma TurnedIs(lines: seq<string>, next: State, j: nat)
    requires Turned(lines, next, j)
    ensures UpTo(LinesOf(next.blocks), j) && Follows(next, j)
  {
    hide UpTo, LinesOf, Follows;
  }

  /** A line whose block is the line alone. */
  lemma SingleText(syntax: Syntax, lines: seq<string>, i: nat, st: State, kind: Kind, text: string, j: nat)
    requires i < j <= |lines| && j <= i + 2 && Kept(syntax, lines, i, st) && (kind.Heading? || kind.Row?)
    requires Turned(lines, Single(st, kind, i + 1, Depth(lines[i]), text), j)
    requires kind.Heading? ==> j == i + 1 && RoleAt(syntax, lines, i).Outside? && !IsPlain(syntax, lines[i])
    requires kind.Row? ==> if j == i + 1 then RoleAt(syntax, lines, i).Cells?
                           else RoleAt(syntax, lines, i).Header? && RoleAt(syntax, lines, i + 1).Separator?
    requires var p := Piece(kind, i + 1, Depth(lines[i]), 0, i + 1, text);
             Fate(syntax, lines, PiecesOf(st.blocks) + {p}, i)
    ensures Kept(syntax, lines, j, Single(st, kind, i + 1, Depth(lines[i]), text))
  {
    hide Fate, RoleAt, LinesOf, PiecesOf, Body, Depth, Kinds, OpenAt, FatesUpTo, IsPlain, UpTo, Follows;
    SingleTurn(syntax, lines, i, st, kind, text, j);
  }

  lemma RowFate(syntax: Syntax, lines: seq<string>, pieces: set<Piece>, k: nat)
    requires k < |lines| && (RoleAt(syntax, lines, k).Header? || RoleAt(syntax, lines, k).Cells?)
    requires Piece(Row, k + 1, Depth(lines[k]), 0, k + 1, syntax.row(Body(lines[k]))) in pieces
    ensures Fate(syntax, lines, pieces, k)
  {
    hide RoleAt, Body, Depth;
  }

  /** A heading by its own mark, or an opener's title. */
  predicate IsTitle(syntax: Syntax, raw: string, text: string) {
    Body(raw) != "" && if IsHash(raw) then text == syntax.heading(Body(raw))
                       else syntax.opener(Body(raw)) == Some(Some(text))
  }

  lemma TitleFate(syntax: Syntax, lines: seq<string>, pieces: set<Piece>, k: nat, text: string)
    requires k < |lines| && RoleAt(syntax, lines, k).Outside? && IsTitle(syntax, lines[k], text)
    requires Piece(Heading, k + 1, Depth(lines[k]), 0, k + 1, text) in pieces
    ensures Fate(syntax, lines, pieces, k) && !IsPlain(syntax, lines[k])
  {
    hide RoleAt, Body, Depth, IsHash;
  }

  /** A blank line, an opener without a title or a reference definition. */
  predicate IsQuiet(syntax: Syntax, raw: string) {
    || Body(raw) == ""
    || (!IsHash(raw) && (syntax.opener(Body(raw)) == Some(None)
                         || (syntax.opener(Body(raw)).None? && syntax.reference(Body(raw)))))
  }

  lemma QuietFate(syntax: Syntax, lines: seq<string>, pieces: set<Piece>, k: nat)
    requires k < |lines| && RoleAt(syntax, lines, k).Outside? && IsQuiet(syntax, lines[k])
    requires FeedsNone(pieces, k + 1)
    ensures Fate(syntax, lines, pieces, k)
  {
    hide RoleAt, Body, Depth, IsHash, FeedsNone;
  }

  lemma QuietText(syntax: Syntax, lines: seq<string>, i: nat, st: State)
    requires i < |lines| && Kept(syntax, lines, i, st)
    requires RoleAt(syntax, lines, i).Outside? && IsQuiet(syntax, lines[i])
    ensures Kept(syntax, lines, i + 1, Close(st))
  {
    hide Fate, RoleAt, Kept, IsQuiet, FeedsNone, PiecesOf;
    KeptIsValid(syntax, lines, i, st);
    if FeedsNone(PiecesOf(st.blocks), i + 1) {
      QuietFate(syntax, lines, PiecesOf(st.blocks), i);
    }
    QuietTurn(syntax, lines, i, st);
  }

  lemma RowText(syntax: Syntax, lines: seq<string>, i: nat, st: State, j: nat)
    requires i < j <= |lines| && Kept(syntax, lines, i, st)
    requires if j == i + 1 then RoleAt(syntax, lines, i).Cells?
             else j == i + 2 && RoleAt(syntax, lines, i).Header? && RoleAt(syntax, lines, i + 1).Separator?
    requires Turned(lines, Single(st, Row, i + 1, Depth(lines[i]), syntax.row(Body(lines[i]))), j)
    ensures Kept(syntax, lines, j, Single(st, Row, i + 1, Depth(lines[i]), syntax.row(Body(lines[i]))))
  {
    hide Fate, RoleAt, Kept, PiecesOf, Body, Depth, Turned, Single;
    var text := syntax.row(Body(lines[i]));
    RowFate(syntax, lines, PiecesOf(st.blocks) + {Piece(Row, i + 1, Depth(lines[i]), 0, i + 1, text)}, i);
    SingleText(syntax, lines, i, st, Row, text, j);
  }

  lemma TitleText(syntax: Syntax, lines: seq<string>, i: nat, st: State, text: string)
    requires i < |lines| && Kept(syntax, lines, i, st)
    requires RoleAt(syntax, lines, i).Outside? && IsTitle(syntax, lines[i], text)
    requires Turned(lines, Single(st, Heading, i + 1, Depth(lines[i]), text), i + 1)
    ensures Kept(syntax, lines, i + 1, Single(st, Heading, i + 1, Depth(lines[i]), text))
  {
    hide Fate, RoleAt, Kept, PiecesOf, Body, Depth, Turned, Single, IsTitle, IsPlain;
    TitleFate(syntax, lines, PiecesOf(st.blocks) + {Piece(Heading, i + 1, Depth(lines[i]), 0, i + 1, text)}, i, text);
    SingleText(syntax, lines, i, st, Heading, text, i + 1);
  }

  lemma StepKept(syntax: Syntax, lines: seq<string>, i: nat, st: State)
    requires i < |lines| && Kept(syntax, lines, i, st)
    ensures var (next, j) := Step(syntax, lines, i, st); Kept(syntax, lines, j, next)
  {
    hide Fate, RoleAt, Kept, Body, Depth, Turned, Single, IsHash, HasPipe, TextStep, TableAt;
    StepTurned(syntax, lines, i, st);
    KeptIsValid(syntax, lines, i, st);
    RoleOfLine(syntax, lines, i, st.inTable);
    var raw, body := lines[i], Body(lines[i]);
    if body == "" {
      NoPipe(body);
      QuietText(syntax, lines, i, st);
    } else if st.inTable && HasPipe(body) {
      RowText(syntax, lines, i, st, i + 1);
    } else if IsHash(raw) {
      TitleText(syntax, lines, i, st, syntax.heading(body));
    } else {
      match syntax.opener(body)
      case Some(Some(title)) => TitleText(syntax, lines, i, st, title);
      case Some(None) => QuietText(syntax, lines, i, st);
      case None =>
        if syntax.reference(body) {
          TextStepQuiet(syntax, lines, i, st);
          QuietText(syntax, lines, i, st);
        } else if StartsTable(syntax, lines, i) {
          TextStepRow(syntax, lines, i, st);
          RowText(syntax, lines, i, st, i + 2);
        } else {
          TextTurn(syntax, lines, i, st);
        }
    }
  }

  lemma NoPipe(body: string)
    requires body == ""
    ensures !HasPipe(body)
  {
  }

  lemma TextStepQuiet(syntax: Syntax, lines: seq<string>, i: nat, st: State)
    requires i < |lines| && ValidState(st) && syntax.reference(Body(lines[i]))
    ensures TextStep(syntax, lines, i, st) == (Close(st), i + 1)
  {
    hide Body, Depth;
  }

  lemma TextStepRow(syntax: Syntax, lines: seq<string>, i: nat, st: State)
    requires i < |lines| && ValidState(st) && !syntax.reference(Body(lines[i])) && StartsTable(syntax, lines, i)
    ensures TextStep(syntax, lines, i, st)
            == (Single(st, Row, i + 1, Depth(lines[i]), syntax.row(Body(lines[i]))), i + 2)
  {
    hide Body, Depth, IsUnderline, IsBreak, HasPipe;
    assert HasPipe(Body(lines[i]));
    PipeIsNoRule(Body(lines[i]));
  }

  lemma {:induction false} RunKept(syntax: Syntax, lines: seq<string>, i: nat, st: State)
    requires Kept(syntax, lines, i, st)
    ensures i <= |lines| && ValidState(st) && Kept(syntax, lines, |lines|, Run(syntax, lines, i, st))
    decreases |lines| - i
  {
    hide Step, Kept;
    KeptInside(syntax, lines, i, st);
    if i < |lines| {
      var (next, j) := Step(syntax, lines, i, st);
      StepKept(syntax, lines, i, st);
      RunKept(syntax, lines, j, next);
    }
  }

  lemma KeptInside(syntax: Syntax, lines: seq<string>, i: nat, st: State)
    requires Kept(syntax, lines, i, st)
    ensures i <= |lines| && ValidState(st) && FatesUpTo(syntax, lines, PiecesOf(st.blocks), i)
    ensures Increasing(LinesOf(st.blocks))
  {
    hide TableAt, ValidState, LinesOf, OpenAt, Kinds, FatesUpTo, PiecesOf, Follows;
  }

  lemma StartIsKept(syntax: Syntax, lines: seq<string>)
    ensures Kept(syntax, lines, 0, START)
  {
  }

  /** What becomes of every line of every page. */
  lemma FateOfLine(syntax: Syntax, lines: seq<string>, k: nat)
    requires k < |lines|
    ensures Fate(syntax, lines, PiecesOf(BlocksOf(syntax, lines)), k)
  {
    hide Kept, Run, Fate, PiecesOf;
    StartIsKept(syntax, lines);
    RunKept(syntax, lines, 0, START);
    KeptInside(syntax, lines, |lines|, Run(syntax, lines, 0, START));
  }

  /** And no line is in two pieces. */
  lemma OnePieceALine(syntax: Syntax, lines: seq<string>, p: Piece, q: Piece)
    requires p in PiecesOf(BlocksOf(syntax, lines)) && q in PiecesOf(BlocksOf(syntax, lines)) && p.number == q.number
    ensures p == q
  {
    hide Kept, Run, PiecesOf, Increasing, LinesOf;
    StartIsKept(syntax, lines);
    RunKept(syntax, lines, 0, START);
    KeptInside(syntax, lines, |lines|, Run(syntax, lines, 0, START));
    OneALine(BlocksOf(syntax, lines), p, q);
  }

  /** What a piece may be, by its own line: the first of its block in the block's own way, or a
      plain line that goes on with it. */
  predicate IsRight(syntax: Syntax, lines: seq<string>, pieces: set<Piece>, p: Piece)
    requires 1 <= p.number <= |lines|
  {
    var k, raw := p.number - 1, lines[p.number - 1];
    && p.depth == Depth(raw)
    && if p.at > 0 then
         PlainAt(syntax, lines, k) && Joinable(p.kind) && p.text == Body(raw) && GoesOn(pieces, p)
       else
         && p.line == p.number
         && match p.kind
            case Row => !RoleAt(syntax, lines, k).Outside? && p.text == syntax.row(Body(raw))
            case Heading => IsTitle(syntax, raw, p.text) || IsSetext(syntax, lines, pieces, k)
            case List => ListMarker(Body(raw)).Some? && p.text == Body(raw)[ListMarker(Body(raw)).value..]
            case Html => StartsHtml(Body(raw)) && p.text == Body(raw)
            case Para => PlainAt(syntax, lines, k) && p.text == Body(raw) && NoneAbove(pieces, k, p.depth)
  }

  /** Of several begun on a line there is the one. */
  lemma BegunIs(pieces: set<Piece>, kind: Kind, raw: string, number: nat, text: string, p: Piece)
    requires Begins(pieces, kind, raw, number, text) && p in pieces && p.number == number
    requires forall q :: q in pieces && q.number == number ==> q == p
    ensures p == Piece(kind, number, Depth(raw), 0, number, text)
  {
  }

  lemma FatesAreRight(syntax: Syntax, lines: seq<string>, pieces: set<Piece>, p: Piece)
    requires p in pieces && 1 <= p.number <= |lines| && Fate(syntax, lines, pieces, p.number - 1)
    requires forall q :: q in pieces && q.number == p.number ==> q == p
    ensures IsRight(syntax, lines, pieces, p)
  {
    hide RoleAt, Body, Depth, IsHash, IsUnderline, IsBreak, ListMarker, StartsHtml, IsUnderlineAt, NoneAbove, GoesOn;
    var k, raw := p.number - 1, lines[p.number - 1];
    if PlainAt(syntax, lines, k) && Flows(pieces, raw, p.number) {
      var q :| q in pieces && IsFlow(pieces, raw, p.number, q);
      assert q == p;
    }
  }

  /** Every part of every block of a page is what its own line makes it. */
  lemma PieceIsRight(syntax: Syntax, lines: seq<string>, p: Piece)
    requires p in PiecesOf(BlocksOf(syntax, lines))
    ensures 1 <= p.number <= |lines| && IsRight(syntax, lines, PiecesOf(BlocksOf(syntax, lines)), p)
  {
    hide Run, Fate, PiecesOf, IsRight, LinesOf, MayBeDropped;
    var pieces := PiecesOf(BlocksOf(syntax, lines));
    BlocksOfAPage(syntax, lines);
    PieceIsFed(BlocksOf(syntax, lines), p);
    FateOfLine(syntax, lines, p.number - 1);
    forall q | q in pieces && q.number == p.number
      ensures q == p
    {
      OnePieceALine(syntax, lines, q, p);
    }
    FatesAreRight(syntax, lines, pieces, p);
  }
}
