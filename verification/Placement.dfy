/** Where an audit row stands on the page it was audited on (`doc_claims.py`). */
module Placement {
  import opened Wrappers
  import opened Sequences
  import opened Registry
  import opened AuditPlan
  import opened AuditFacts
  import opened AuditEntries
  import Text
  import LineShapes

  /** A unit on the lines `first` to `last`. */
  datatype Span = Span(u: Unit, first: nat, last: nat)

  /** A row's line and its excerpt, in fragments and whole, normalised as a unit is. */
  datatype Where = Where(line: nat, fragments: seq<string>, whole: string)

  const FRAGMENT_MIN := 4
  const LINE_SLACK := 2

  function Has(fragment: string): Unit -> bool {
    (u: Unit) => Text.Contains(u.text, fragment)
  }

  /** A fragment that no other unit near holds, or the whole unit, is in the excerpt. */
  predicate IsPicked(units: seq<Unit>, w: Where, u: Unit) {
    || (exists f :: f in w.fragments && Filter(units, Has(f)) == [u])
    || (u in units && |u.text| >= FRAGMENT_MIN && Text.Contains(w.whole, u.text))
  }

  function Picked(units: seq<Unit>, w: Where): seq<Unit> {
    Filter(units, (u: Unit) => IsPicked(units, w, u))
  }

  method KeepOnly(units: seq<Unit>, test: Unit -> bool) returns (kept: seq<Unit>)
    ensures kept == Filter(units, test)
  {
    kept := [];
    for k := 0 to |units|
      invariant kept == Filter(units[..k], test)
    {
      assert units[..k + 1][..k] == units[..k];
      if test(units[k]) {
        kept := kept + [units[k]];
      }
    }
    assert units[..|units|] == units;
  }

  /** The units that the excerpt picks, in page order. */
  method PickUnits(units: seq<Unit>, w: Where) returns (picked: seq<Unit>)
    ensures picked == Picked(units, w)
  {
    hide Filter;
    var found: seq<Unit> := [];
    for k := 0 to |w.fragments|
      invariant forall u :: u in found <==> exists f :: f in w.fragments[..k] && Filter(units, Has(f)) == [u]
    {
      var fragment := w.fragments[k];
      assert w.fragments[..k + 1] == w.fragments[..k] + [fragment];
      var holding := KeepOnly(units, Has(fragment));
      if |holding| == 1 && holding[0] !in found {
        found := found + [holding[0]];
      }
      assert |holding| == 1 ==> holding == [holding[0]];
    }
    assert w.fragments[..|w.fragments|] == w.fragments;
    ghost var byFragment := found;
    for k := 0 to |units|
      invariant forall u :: u in found <==>
                  u in byFragment || (u in units[..k] && |u.text| >= FRAGMENT_MIN && Text.Contains(w.whole, u.text))
    {
      assert units[..k + 1] == units[..k] + [units[k]];
      if units[k] !in found && |units[k].text| >= FRAGMENT_MIN && Text.Contains(w.whole, units[k].text) {
        found := found + [units[k]];
      }
    }
    assert units[..|units|] == units;
    var now := found;
    picked := KeepOnly(units, (u: Unit) => u in now);
    SameTest(units, (u: Unit) => u in now, (u: Unit) => IsPicked(units, w, u));
  }

  lemma {:induction false} SameTest(units: seq<Unit>, a: Unit -> bool, b: Unit -> bool)
    requires forall k :: 0 <= k < |units| ==> a(units[k]) == b(units[k])
    ensures Filter(units, a) == Filter(units, b)
  {
    if units != [] {
      SameTest(units[..|units| - 1], a, b);
    }
  }

  /** The units with some of their words at most `slack` lines away. */
  function Around(spans: seq<Span>, line: nat, slack: nat): (r: seq<Unit>)
    ensures forall u :: u in r <==>
              exists k :: 0 <= k < |spans| && spans[k].u == u
                          && spans[k].first <= line + slack && line <= spans[k].last + slack
  {
    if spans == [] then []
    else
      var s := spans[|spans| - 1];
      assert forall k :: 0 <= k < |spans| - 1 ==> spans[..|spans| - 1][k] == spans[k];
      Around(spans[..|spans| - 1], line, slack)
      + if s.first <= line + slack && line <= s.last + slack then [s.u] else []
  }

  method FindAround(spans: seq<Span>, line: nat, slack: nat) returns (units: seq<Unit>)
    ensures units == Around(spans, line, slack)
  {
    units := [];
    for k := 0 to |spans|
      invariant units == Around(spans[..k], line, slack)
    {
      assert spans[..k + 1][..k] == spans[..k];
      if spans[k].first <= line + slack && line <= spans[k].last + slack {
        units := units + [spans[k].u];
      }
    }
    assert spans[..|spans|] == spans;
  }

  /** The units a row maps to: those on its line the excerpt picks, else those near it, else
      the one on its line. */
  function MappedUnits(spans: seq<Span>, w: Where): seq<Unit> {
    var onLine, near := Around(spans, w.line, 0), Around(spans, w.line, LINE_SLACK);
    if Picked(onLine, w) != [] then Picked(onLine, w)
    else if Picked(near, w) != [] then Picked(near, w)
    else if |onLine| == 1 then onLine else []
  }

  method UnitsOfRow(spans: seq<Span>, w: Where) returns (mapped: seq<Unit>, onLine: seq<Unit>)
    ensures mapped == MappedUnits(spans, w) && onLine == Around(spans, w.line, 0)
  {
    hide Picked, Around;
    onLine := FindAround(spans, w.line, 0);
    mapped := PickUnits(onLine, w);
    if mapped != [] {
      return;
    }
    var near := FindAround(spans, w.line, LINE_SLACK);
    mapped := PickUnits(near, w);
    if mapped != [] {
      return;
    }
    mapped := if |onLine| == 1 then onLine else [];
  }

  /** Every unit a row maps to stands on or near its line, and is picked or the only one there. */
  lemma MappedAreNear(spans: seq<Span>, w: Where, u: Unit)
    requires u in MappedUnits(spans, w)
    ensures u in Around(spans, w.line, LINE_SLACK)
    ensures var onLine, near := Around(spans, w.line, 0), Around(spans, w.line, LINE_SLACK);
            IsPicked(onLine, w, u) || IsPicked(near, w, u) || onLine == [u]
  {
    hide IsPicked, Around;
    if u in Around(spans, w.line, 0) {
      OnLineIsNear(spans, w.line, u);
    }
  }

  lemma OnLineIsNear(spans: seq<Span>, line: nat, u: Unit)
    requires u in Around(spans, line, 0)
    ensures u in Around(spans, line, LINE_SLACK)
  {
    var k :| 0 <= k < |spans| && spans[k].u == u && spans[k].first <= line + 0 && line <= spans[k].last + 0;
    assert spans[k].first <= line + LINE_SLACK && line <= spans[k].last + LINE_SLACK;
  }

  /** The page's line is not blank, and what the splitter sees of it is. */
  predicate OutsideProse(raw: seq<string>, visible: seq<string>, line: nat)
    requires |raw| <= |visible|
  {
    1 <= line <= |raw| && Text.Strip(raw[line - 1]) != "" && Text.Strip(visible[line - 1]) == ""
  }

  /** The whole excerpt is still in the page's text. */
  predicate IsOnPage(w: Where, flat: string) {
    var pieces := if w.fragments != [] then w.fragments else [w.whole];
    forall piece :: piece in pieces ==> piece != "" && Text.Contains(flat, piece)
  }

  /** The page at the audit, and the texts an excerpt is looked for in. */
  datatype Audited = Audited(raw: seq<string>, visible: seq<string>, spans: seq<Span>, flat: string, oldFlat: string)

  predicate IsSplit(a: Audited) {
    |a.raw| <= |a.visible|
  }

  function PlaceOf(a: Audited, w: Where): Place
    requires IsSplit(a)
  {
    Place(OutsideProse(a.raw, a.visible, w.line), Texts(MappedUnits(a.spans, w)), Texts(Around(a.spans, w.line, 0)),
          IsOnPage(w, a.flat), IsOnPage(w, a.oldFlat))
  }

  const NOWHERE := Place(false, [], [], false, false)

  /** Where each row stands. */
  function Located(a: Audited, wheres: seq<Where>): nat -> Place
    requires IsSplit(a)
  {
    (n: nat) => if n < |wheres| then PlaceOf(a, wheres[n]) else NOWHERE
  }

  /** The plan for a document from its page, the page at the audit and the audit's rows. */
  method PlanPage(document: string, page: Option<seq<Unit>>, audited: Option<Audited>, rows: seq<Row>,
                  wheres: seq<Where>, resolve: string -> Resolved, hash: string -> string) returns (plan: Plan)
    requires |wheres| == |rows| && (audited.Some? ==> IsSplit(audited.value))
    ensures fresh(plan)
    ensures plan.error <==> page.None? || audited.None?
    ensures plan.Now() == if page.None? || audited.None? then BLANK
                          else PlanOf(document, Texts(page.value), UnitTexts(audited.value.spans), rows,
                                      Located(audited.value, wheres), resolve, hash)
  {
    hide PlanOf, PlaceOf, UnitTexts;
    var was := if audited.Some? then Some(UnitTexts(audited.value.spans)) else None;
    var place := if audited.Some? then Located(audited.value, wheres) else (n: nat) => NOWHERE;
    plan := PlanDocument(document, page, was, rows, place, resolve, hash);
  }

  function UnitTexts(spans: seq<Span>): set<string> {
    set s | s in spans :: s.u.text
  }

  lemma TextsOf(units: seq<Unit>, text: string)
    ensures text in Texts(units) <==> exists u :: u in units && u.text == text
  {
    if text in Texts(units) {
      var k :| 0 <= k < |units| && Texts(units)[k] == text;
      assert units[k] in units;
    }
    if exists u :: u in units && u.text == text {
      var u :| u in units && u.text == text;
      var k :| 0 <= k < |units| && units[k] == u;
      assert Texts(units)[k] == text;
    }
  }

  /** A row only goes to, and only holds back, units of the page at the audit. */
  lemma PlacedOnOldUnits(a: Audited, w: Where, text: string)
    requires IsSplit(a)
    requires text in PlaceOf(a, w).mapped || text in PlaceOf(a, w).onLine
    ensures text in UnitTexts(a.spans)
  {
    hide MappedUnits, Around, IsOnPage, OutsideProse, Texts;
    TextsOf(MappedUnits(a.spans, w), text);
    TextsOf(Around(a.spans, w.line, 0), text);
    var u: Unit :| u.text == text && (u in MappedUnits(a.spans, w) || u in Around(a.spans, w.line, 0));
    if u in MappedUnits(a.spans, w) {
      MappedAreNear(a.spans, w, u);
      OldUnit(a.spans, w.line, LINE_SLACK, u);
    } else {
      OldUnit(a.spans, w.line, 0, u);
    }
  }

  lemma OldUnit(spans: seq<Span>, line: nat, slack: nat, u: Unit)
    requires u in Around(spans, line, slack)
    ensures u.text in UnitTexts(spans)
  {
    var k :| 0 <= k < |spans| && spans[k].u == u;
    assert spans[k] in spans;
  }

  /** A unit new since the audit gets no entry, whatever the rows. */
  lemma NewUnitsGetNoEntry(a: Audited, wheres: seq<Where>, rows: seq<Row>, now: seq<string>,
                           resolve: string -> Resolved, text: string)
    requires IsSplit(a) && text !in UnitTexts(a.spans)
    ensures Fates(SettledOf(rows, Located(a, wheres), now, resolve), UnitTexts(a.spans), text) == New
  {
    hide SettledOf, Fates, GoesTo, HeldBy, PlaceOf, UnitTexts;
    var place := Located(a, wheres);
    forall m: nat | m < |rows|
      ensures text !in GoesTo(rows[m], place(m), now) && text !in HeldBy(rows[m], place(m))
    {
      NotOnNew(a, wheres, rows[m], m, now, text);
    }
    NeitherIsNew(rows, place, now, resolve, UnitTexts(a.spans), text);
  }

  lemma NotOnNew(a: Audited, wheres: seq<Where>, row: Row, m: nat, now: seq<string>, text: string)
    requires IsSplit(a) && text !in UnitTexts(a.spans)
    ensures text !in GoesTo(row, Located(a, wheres)(m), now) && text !in HeldBy(row, Located(a, wheres)(m))
  {
    hide PlaceOf, UnitTexts;
    if m < |wheres| {
      var p := PlaceOf(a, wheres[m]);
      if text in p.mapped || text in p.onLine {
        PlacedOnOldUnits(a, wheres[m], text);
      }
    }
  }

  lemma NeitherIsNew(rows: seq<Row>, place: nat -> Place, now: seq<string>, resolve: string -> Resolved,
                     was: set<string>, text: string)
    requires text !in was
    requires forall m: nat :: m < |rows| ==>
               text !in GoesTo(rows[m], place(m), now) && text !in HeldBy(rows[m], place(m))
    ensures Fates(SettledOf(rows, place, now, resolve), was, text) == New
  {
    hide PlaceRows, SettleUnits, GoesTo, HeldBy, AllNameTargets, EntryOf, Within;
    var stage := SettledOf(rows, place, now, resolve).stage;
    assert rows[..|rows|] == rows;
    EntriesAre(stage.plan, stage.rowsOf, stage.names, rows, resolve, text);
    KeysAre(rows, place, now, resolve, text);
    HeldIs(rows, place, now, |rows|, text);
  }

  /** An X row and a T row on the one unit of a page, whatever their excerpts: the unit is held
      back, and gets an entry. */
  lemma XAndTOnAPage(text: string, x: Where, t: Where, flat: string, resolve: string -> Resolved)
    requires x.line == t.line == 1
    ensures var a := Audited([text], [text], [Span(Unit(text, 1), 1, 1)], flat, flat);
            var rows, place := [Row(Some(X), false, ""), Row(Some(T), false, "")], Located(a, [x, t]);
            && text in HeldBy(rows[0], place(0))
            && Fates(SettledOf(rows, place, [text], resolve), UnitTexts(a.spans), text).HasEntry?
  {
    var a := Audited([text], [text], [Span(Unit(text, 1), 1, 1)], flat, flat);
    hide Fates, SettledOf, PlaceOf, UnitTexts, HeldBy;
    OnlyPlace(text, flat, x);
    OnlyPlace(text, flat, t);
    XAndTMapped(text, Located(a, [x, t]), UnitTexts(a.spans), resolve);
  }

  lemma OnlyPlace(text: string, flat: string, w: Where)
    requires w.line == 1
    ensures var a := Audited([text], [text], [Span(Unit(text, 1), 1, 1)], flat, flat);
            IsSplit(a) && !PlaceOf(a, w).inside && PlaceOf(a, w).mapped == [text]
  {
    hide MappedUnits, Around, IsOnPage;
    OnlyOneUnit(text, w);
    assert Texts([Unit(text, 1)]) == [text];
  }

  lemma OnlyOneUnit(text: string, w: Where)
    requires w.line == 1
    ensures MappedUnits([Span(Unit(text, 1), 1, 1)], w) == [Unit(text, 1)]
  {
    hide IsPicked, Filter, Around;
    var u := Unit(text, 1);
    OnlyAround(u, 0);
    OnlyAround(u, LINE_SLACK);
    OneOrNone(u, (v: Unit) => IsPicked([u], w, v));
  }

  lemma OnlyAround(u: Unit, slack: nat)
    ensures Around([Span(u, 1, 1)], 1, slack) == [u]
  {
    var spans := [Span(u, 1, 1)];
    assert spans[..0] == [];
    assert Around([], 1, slack) == [];
  }

  lemma OneOrNone(u: Unit, test: Unit -> bool)
    ensures Filter([u], test) == [] || Filter([u], test) == [u]
  {
    assert [u][..0] == [];
  }

  // --- Which units a row maps to ---

  /** The unit has words on one of the lines up to `slack` away. */
  predicate IsAround(spans: seq<Span>, line: nat, slack: nat, u: Unit) {
    exists k :: 0 <= k < |spans| && spans[k].u == u
                && spans[k].first <= line + slack && line <= spans[k].last + slack
  }

  /** The unit is around the line, and the excerpt picks it of those that are. */
  predicate PicksAround(spans: seq<Span>, w: Where, slack: nat, u: Unit) {
    IsAround(spans, w.line, slack, u) && IsPicked(Around(spans, w.line, slack), w, u)
  }

  lemma PickedAround(spans: seq<Span>, w: Where, slack: nat)
    ensures var picked := Picked(Around(spans, w.line, slack), w);
            && (forall u :: u in picked <==> PicksAround(spans, w, slack, u))
            && (picked == [] <==> forall u :: !PicksAround(spans, w, slack, u))
  {
    hide IsPicked;
    var picked := Picked(Around(spans, w.line, slack), w);
    assert picked != [] ==> picked[0] in picked;
  }

  /** Where the excerpt picks units on the row's line, these and no others are mapped; where it picks
      none there, those it picks within two lines; and where none either, the one on the line, if it
      is the only one. */
  lemma WhichAreMapped(spans: seq<Span>, w: Where, u: Unit)
    ensures u in MappedUnits(spans, w) <==>
            if exists v :: PicksAround(spans, w, 0, v) then PicksAround(spans, w, 0, u)
            else if exists v :: PicksAround(spans, w, 2, v) then PicksAround(spans, w, 2, u)
            else Around(spans, w.line, 0) == [u]
  {
    hide PicksAround, Around, Picked;
    PickedAround(spans, w, 0);
    PickedAround(spans, w, LINE_SLACK);
  }

  // --- Where a row stands, by the characters ---

  /** Not white space alone. */
  predicate HasInk(line: string) {
    exists k :: 0 <= k < |line| && !Text.IsSpace(line[k])
  }

  lemma InkIs(line: string)
    ensures Text.Strip(line) != "" <==> HasInk(line)
  {
    if HasInk(line) {
      var left, right := LineShapes.StripLeaves(line);
      assert Text.Strip(line) == "" ==> line == left + right;
    } else {
      assert line == line + "" + "";
      LineShapes.StripIs(line, "", "");
    }
  }

  ghost predicate IsIn(piece: string, text: string) {
    exists before, after :: text == before + piece + after
  }

  lemma ContainsIs(text: string, piece: string)
    ensures Text.Contains(text, piece) <==> IsIn(piece, text)
  {
    if Text.Contains(text, piece) {
      var i :| 0 <= i <= |text| && Text.OccursAt(text, piece, i);
      assert text == text[..i] + piece + text[i + |piece|..];
    }
    if IsIn(piece, text) {
      var before, after :| text == before + piece + after;
      assert text[|before|..] == piece + after;
      assert Text.OccursAt(text, piece, |before|);
    }
  }

  /** Every piece of the excerpt, or all of it where it has none, has text and stands in this one. */
  ghost predicate Holds(w: Where, text: string) {
    if w.fragments == [] then w.whole != "" && IsIn(w.whole, text)
    else forall k :: 0 <= k < |w.fragments| ==> w.fragments[k] != "" && IsIn(w.fragments[k], text)
  }

  lemma OnPageIs(w: Where, text: string)
    ensures IsOnPage(w, text) <==> Holds(w, text)
  {
    hide IsIn, Text.Contains;
    var pieces := if w.fragments != [] then w.fragments else [w.whole];
    forall k | 0 <= k < |pieces|
      ensures pieces[k] in pieces && (Text.Contains(text, pieces[k]) <==> IsIn(pieces[k], text))
    {
      ContainsIs(text, pieces[k]);
    }
    if IsOnPage(w, text) {
      assert pieces[0] in pieces;
    } else {
      var piece :| piece in pieces && !(piece != "" && Text.Contains(text, piece));
      var k :| 0 <= k < |pieces| && pieces[k] == piece;
    }
  }

  /** A row's line is outside the prose when it has text on the page and none of it is visible; its
      excerpt is on the page, now or at the audit, when that page's text has every piece of it. */
  lemma PlaceIs(a: Audited, w: Where)
    requires IsSplit(a)
    ensures var p := PlaceOf(a, w);
            && (p.inside <==> 0 < w.line <= |a.raw| && HasInk(a.raw[w.line - 1]) && !HasInk(a.visible[w.line - 1]))
            && (p.onPage <==> Holds(w, a.flat)) && (p.wasOnPage <==> Holds(w, a.oldFlat))
  {
    hide HasInk, Holds, IsOnPage, Text.Strip, MappedUnits;
    OnPageIs(w, a.flat);
    OnPageIs(w, a.oldFlat);
    if 0 < w.line <= |a.raw| {
      InkIs(a.raw[w.line - 1]);
      InkIs(a.visible[w.line - 1]);
    }
  }
}
