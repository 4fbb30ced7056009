/** The registry a page's audit rows give (`doc_claims.py`, the generator). */
module AuditPlan {
  import opened Wrappers
  import opened Registry
  import Ledger
  import Text
  import opened Sequences

  /** An audit tag: a device, a test, a screen or an absent check owed, or text that must go. */
  datatype Tag = A | S | T | D | R | X

  /** An audit row; `cites` is its `by`, empty for none. */
  datatype Row = Row(tag: Option<Tag>, covered: bool, cites: string)

  /** Where a row stands: inside prose the splitter does not read, the texts of the units it maps
      to and of those on its line, and whether its excerpt is on the page and was at the audit. */
  datatype Place = Place(inside: bool, mapped: seq<string>, onLine: seq<string>, onPage: bool, wasOnPage: bool)

  /** What a `by` resolves to: targets, what is left to hand, and what is refused. */
  datatype Resolved = Resolved(targets: seq<string>, byHand: seq<string>, refused: seq<string>)

  datatype Outcome = Mapped | Refused | ByHand

  datatype Counter =
    | Rows | OnPage | Gone | NotPlaced | OutsideUncovered | OutsideCovered | UnitChanged
    | Settled(outcome: Outcome) | NewUnits | GoneUnits | Debt(head: string) | Verified

  datatype Why = Device | CitesNothing | Untagged | Beside

  /** A printed line. */
  datatype Note =
    | OfRow(row: nat)
    | NoUnit(row: nat)
    | SeveralUnits(row: nat)
    | Unmapped(row: nat, text: string, why: Why)
    | OfTarget(row: nat, text: string, problem: string)
    | OfUnit(text: string)

  /** What a plan holds. */
  datatype Content = Content(entries: seq<Raw>, ledger: seq<Ledger.Line>, counts: multiset<Counter>,
                             present: seq<Note>, unplaced: seq<Note>, byHand: seq<Note>, refused: seq<Note>,
                             outside: seq<Note>, mixed: seq<Note>, added: seq<Note>)

  const BLANK := Content([], [], multiset{}, [], [], [], [], [], [], [])

  class Plan {
    var error: bool
    var entries: seq<Raw>
    var ledger: seq<Ledger.Line>
    var counts: multiset<Counter>
    var present: seq<Note>
    var unplaced: seq<Note>
    var byHand: seq<Note>
    var refused: seq<Note>
    var outside: seq<Note>
    var mixed: seq<Note>
    var added: seq<Note>

    constructor ()
      ensures !error && Now() == BLANK
    {
      error, entries, ledger, counts := false, [], [], multiset{};
      present, unplaced, byHand, refused, outside, mixed, added := [], [], [], [], [], [], [];
    }

    function Now(): Content
      reads this
    {
      Content(entries, ledger, counts, present, unplaced, byHand, refused, outside, mixed, added)
    }
  }

  // --- The rows ---

  predicate MustGo(row: Row) {
    row.tag == Some(R) || row.tag == Some(X)
  }

  predicate IsDebt(row: Row) {
    row.tag == Some(A) || row.tag == Some(S) || row.tag == Some(T)
  }

  function MappedBy(p: Place): seq<string> {
    if p.inside then [] else p.mapped
  }

  function LineOf(p: Place): seq<string> {
    if p.inside then [] else p.onLine
  }

  /** The units, of those given, that are still on the page. */
  function Kept(texts: seq<string>, now: seq<string>): (r: seq<string>)
    ensures forall t :: t in r <==> t in texts && t in now
  {
    if texts == [] then []
    else
      var last := texts[|texts| - 1];
      assert texts == texts[..|texts| - 1] + [last];
      Kept(texts[..|texts| - 1], now) + if last in now then [last] else []
  }

  /** The rows of each unit they carry forward to, the units in the order first met, and the
      units of rows that could not be placed. */
  datatype Stage = Stage(plan: Content, rowsOf: map<string, seq<nat>>, names: seq<string>, held: set<string>)

  function Tick(c: Content, count: Counter): Content {
    c.(counts := c.counts + multiset{count})
  }

  function AddRow(s: Stage, text: string, n: nat): Stage {
    if text in s.rowsOf then s.(rowsOf := s.rowsOf[text := s.rowsOf[text] + [n]])
    else s.(rowsOf := s.rowsOf[text := [n]], names := s.names + [text])
  }

  function AddRows(s: Stage, texts: seq<string>, n: nat): Stage {
    if texts == [] then s else AddRow(AddRows(s, texts[..|texts| - 1], n), texts[|texts| - 1], n)
  }

  /** A row whose text must go: on the page still, gone, or nothing to tell by. */
  function PlaceMustGo(c: Content, n: nat, p: Place): Content {
    if p.onPage then Tick(c, OnPage).(present := c.present + [OfRow(n)])
    else if MappedBy(p) == [] && LineOf(p) == [] && !p.wasOnPage then
      Tick(c, NotPlaced).(unplaced := c.unplaced + [OfRow(n)])
    else Tick(c, Gone)
  }

  /** Any other row that goes to no unit of the page. */
  function PlaceNowhere(c: Content, n: nat, row: Row, p: Place): Content {
    if p.inside && (row.tag.Some? || !row.covered) then Tick(c, OutsideUncovered).(outside := c.outside + [OfRow(n)])
    else if p.inside then Tick(c, OutsideCovered)
    else if MappedBy(p) != [] then Tick(c, UnitChanged)
    else Tick(c, Settled(ByHand)).(byHand := c.byHand + [if LineOf(p) == [] then NoUnit(n) else SeveralUnits(n)])
  }

  /** The units a row keeps from having an entry of their own. */
  function HeldBy(row: Row, p: Place): seq<string> {
    if MustGo(row) then (if MappedBy(p) != [] then MappedBy(p) else LineOf(p))
    else if MappedBy(p) == [] then LineOf(p)
    else []
  }

  /** The units a row carries forward to. */
  function GoesTo(row: Row, p: Place, now: seq<string>): seq<string> {
    if MustGo(row) then [] else Kept(MappedBy(p), now)
  }

  function PlaceRow(s: Stage, n: nat, row: Row, p: Place, now: seq<string>): Stage {
    var c, texts := Tick(s.plan, Rows), GoesTo(row, p, now);
    var placed :=
      if MustGo(row) then PlaceMustGo(c, n, p)
      else if texts == [] then PlaceNowhere(c, n, row, p)
      else c;
    AddRows(Stage(placed, s.rowsOf, s.names, s.held + ToSet(HeldBy(row, p))), texts, n)
  }

  function PlaceRows(rows: seq<Row>, place: nat -> Place, now: seq<string>): Stage {
    if rows == [] then Stage(BLANK, map[], [], {})
    else
      var n := |rows| - 1;
      PlaceRow(PlaceRows(rows[..n], place, now), n, rows[n], place(n), now)
  }

  method KeepTexts(texts: seq<string>, now: seq<string>) returns (kept: seq<string>)
    ensures kept == Kept(texts, now)
  {
    kept := [];
    for k := 0 to |texts|
      invariant kept == Kept(texts[..k], now)
    {
      assert texts[..k + 1][..k] == texts[..k];
      if texts[k] in now {
        kept := kept + [texts[k]];
      }
    }
    assert texts[..|texts|] == texts;
  }

  method AppendRow(rowsOf: map<string, seq<nat>>, names: seq<string>, texts: seq<string>, n: nat, ghost s: Stage)
    returns (rowsOf2: map<string, seq<nat>>, names2: seq<string>)
    requires s.rowsOf == rowsOf && s.names == names
    ensures AddRows(s, texts, n) == s.(rowsOf := rowsOf2, names := names2)
  {
    rowsOf2, names2 := rowsOf, names;
    for k := 0 to |texts|
      invariant AddRows(s, texts[..k], n) == s.(rowsOf := rowsOf2, names := names2)
    {
      assert texts[..k + 1][..k] == texts[..k];
      var text := texts[k];
      if text in rowsOf2 {
        rowsOf2 := rowsOf2[text := rowsOf2[text] + [n]];
      } else {
        rowsOf2, names2 := rowsOf2[text := [n]], names2 + [text];
      }
    }
    assert texts[..|texts|] == texts;
  }

  method SortRows(plan: Plan, rows: seq<Row>, place: nat -> Place, now: seq<string>)
    returns (rowsOf: map<string, seq<nat>>, names: seq<string>, held: set<string>)
    requires plan.Now() == BLANK
    modifies plan
    ensures Stage(plan.Now(), rowsOf, names, held) == PlaceRows(rows, place, now)
    ensures plan.error == old(plan.error)
  {
    hide AddRows, Kept;
    rowsOf, names, held := map[], [], {};
    for n := 0 to |rows|
      invariant Stage(plan.Now(), rowsOf, names, held) == PlaceRows(rows[..n], place, now)
      invariant plan.error == old(plan.error)
    {
      assert rows[..n + 1][..n] == rows[..n];
      var row, p := rows[n], place(n);
      rowsOf, names, held := SortRow(plan, rowsOf, names, held, n, row, p, now);
    }
    assert rows[..|rows|] == rows;
  }

  /** One row of the loop. */
  method SortRow(plan: Plan, rowsOf: map<string, seq<nat>>, names: seq<string>, held: set<string>,
                 n: nat, row: Row, p: Place, now: seq<string>)
    returns (rowsOf2: map<string, seq<nat>>, names2: seq<string>, held2: set<string>)
    modifies plan
    ensures Stage(plan.Now(), rowsOf2, names2, held2)
            == PlaceRow(Stage(old(plan.Now()), rowsOf, names, held), n, row, p, now)
    ensures plan.error == old(plan.error)
  {
    hide AddRows, Kept, ToSet;
    rowsOf2, names2, held2 := rowsOf, names, held;
    plan.counts := plan.counts + multiset{Rows};
    var mapped: seq<string>, line: seq<string> := [], [];
    if !p.inside {
      mapped, line := p.mapped, p.onLine;
    }
    NoneAdded(Stage(plan.Now(), rowsOf, names, held), n);
    if MustGo(row) {
      SortMustGo(plan, n, p, mapped, line);
      held2 := held2 + ToSet(if mapped != [] then mapped else line);
      NoneAdded(Stage(plan.Now(), rowsOf, names, held2), n);
      return;
    }
    if mapped == [] {
      SortUnmapped(plan, n, row, p, line);
      held2 := held2 + ToSet(line);
      NoneKept(now);
      NoneAdded(Stage(plan.Now(), rowsOf, names, held2), n);
      return;
    }
    NoneHeld(held);
    var kept := KeepTexts(mapped, now);
    if kept == [] {
      plan.counts := plan.counts + multiset{UnitChanged};
      NoneAdded(Stage(plan.Now(), rowsOf, names, held), n);
      return;
    }
    rowsOf2, names2 := AppendRow(rowsOf, names, kept, n, Stage(plan.Now(), rowsOf, names, held));
  }

  lemma NoneAdded(s: Stage, n: nat)
    ensures AddRows(s, [], n) == s
  {
  }

  lemma NoneKept(now: seq<string>)
    ensures Kept([], now) == []
  {
  }

  lemma NoneHeld(held: set<string>)
    ensures held + ToSet([]) == held
  {
  }

  method SortMustGo(plan: Plan, n: nat, p: Place, mapped: seq<string>, line: seq<string>)
    requires mapped == MappedBy(p) && line == LineOf(p)
    modifies plan
    ensures plan.Now() == PlaceMustGo(old(plan.Now()), n, p)
    ensures plan.error == old(plan.error)
  {
    if p.onPage {
      plan.counts := plan.counts + multiset{OnPage};
      plan.present := plan.present + [OfRow(n)];
    } else if mapped == [] && line == [] && !p.wasOnPage {
      plan.counts := plan.counts + multiset{NotPlaced};
      plan.unplaced := plan.unplaced + [OfRow(n)];
    } else {
      plan.counts := plan.counts + multiset{Gone};
    }
  }

  /** A row in prose the splitter does not read, or on no one unit. */
  method SortUnmapped(plan: Plan, n: nat, row: Row, p: Place, line: seq<string>)
    requires MappedBy(p) == [] && line == LineOf(p)
    modifies plan
    ensures plan.Now() == PlaceNowhere(old(plan.Now()), n, row, p)
    ensures plan.error == old(plan.error)
  {
    if p.inside {
      if row.tag.Some? || !row.covered {
        plan.counts := plan.counts + multiset{OutsideUncovered};
        plan.outside := plan.outside + [OfRow(n)];
      } else {
        plan.counts := plan.counts + multiset{OutsideCovered};
      }
      return;
    }
    plan.counts := plan.counts + multiset{Settled(ByHand)};
    plan.byHand := plan.byHand + [if line == [] then NoUnit(n) else SeveralUnits(n)];
  }

  // --- The units' entries ---

  predicate IsCovered(row: Row) {
    row.tag.None? && row.covered && row.cites != ""
  }

  predicate IsOther(row: Row) {
    !IsCovered(row) && !IsDebt(row)
  }

  function WhyNot(row: Row): Why {
    if row.tag == Some(D) then Device
    else if row.covered && row.tag.None? then CitesNothing
    else if row.tag.None? then Untagged
    else Beside
  }

  function Rank(o: Outcome): nat {
    match o case Mapped => 0 case Refused => 1 case ByHand => 2
  }

  function Least(a: Outcome, b: Outcome): Outcome {
    if Rank(b) < Rank(a) then b else a
  }

  function Settle(outcome: map<nat, Outcome>, n: nat, result: Outcome): map<nat, Outcome> {
    outcome[n := Least(if n in outcome then outcome[n] else ByHand, result)]
  }

  predicate Within(numbers: seq<nat>, rows: seq<Row>) {
    forall k :: 0 <= k < |numbers| ==> numbers[k] < |rows|
  }

  predicate SomeRow(numbers: seq<nat>, rows: seq<Row>, test: Row -> bool)
    requires Within(numbers, rows)
  {
    exists k :: 0 <= k < |numbers| && test(rows[numbers[k]])
  }

  function TagText(tag: Tag): string {
    match tag case A => "A" case S => "S" case T => "T" case D => "D" case R => "R" case X => "X"
  }

  function Tagged(tag: Tag): Row -> bool {
    (row: Row) => row.tag == Some(tag)
  }

  /** The heaviest debt among the rows: A, then S, then T. */
  function Heaviest(numbers: seq<nat>, rows: seq<Row>): Option<Tag>
    requires Within(numbers, rows)
  {
    if SomeRow(numbers, rows, Tagged(A)) then Some(A)
    else if SomeRow(numbers, rows, Tagged(S)) then Some(S)
    else if SomeRow(numbers, rows, Tagged(T)) then Some(T)
    else None
  }

  /** What one unit makes of one of its rows. */
  function ResultOn(numbers: seq<nat>, rows: seq<Row>, resolve: string -> Resolved, n: nat): Outcome
    requires Within(numbers, rows) && n < |rows|
  {
    if SomeRow(numbers, rows, IsOther) then ByHand
    else if Heaviest(numbers, rows).Some? then Mapped
    else OfCited(resolve(rows[n].cites))
  }

  function OfCited(r: Resolved): Outcome {
    if r.targets != [] then Mapped
    else if r.refused != [] && r.byHand == [] then Refused
    else ByHand
  }

  function SettleEach(outcome: map<nat, Outcome>, numbers: seq<nat>, result: nat -> Outcome): map<nat, Outcome> {
    if numbers == [] then outcome
    else
      var n := numbers[|numbers| - 1];
      Settle(SettleEach(outcome, numbers[..|numbers| - 1], result), n, result(n))
  }

  /** All the targets the rows cite. */
  function Cited(numbers: seq<nat>, rows: seq<Row>, resolve: string -> Resolved): seq<string>
    requires Within(numbers, rows)
  {
    if numbers == [] then []
    else
      Cited(numbers[..|numbers| - 1], rows, resolve) + resolve(rows[numbers[|numbers| - 1]].cites).targets
  }

  function EntryOf(text: string, numbers: seq<nat>, rows: seq<Row>, resolve: string -> Resolved): Option<Raw>
    requires Within(numbers, rows)
  {
    if SomeRow(numbers, rows, IsOther) then None
    else
      var debt := Heaviest(numbers, rows);
      if debt.Some? then Some(Simple(text, ["untested:" + TagText(debt.value)]))
      else
        var targets := Distinct(Cited(numbers, rows, resolve));
        if targets == [] then None else Some(Simple(text, targets))
  }

  function Simple(text: string, targets: seq<string>): Raw {
    Entry(text, false, One, Some(targets), None)
  }

  // What the unit's rows print.

  function Handed(numbers: seq<nat>, rows: seq<Row>, text: string): seq<Note>
    requires Within(numbers, rows)
  {
    if numbers == [] then []
    else
      var n := numbers[|numbers| - 1];
      Handed(numbers[..|numbers| - 1], rows, text) + [Unmapped(n, text, WhyNot(rows[n]))]
  }

  function OfTargets(n: nat, text: string, problems: seq<string>): (r: seq<Note>)
    ensures |r| == |problems| && forall k :: 0 <= k < |r| ==> r[k] == OfTarget(n, text, problems[k])
  {
    seq(|problems|, k requires 0 <= k < |problems| => OfTarget(n, text, problems[k]))
  }

  function AllByHand(numbers: seq<nat>, rows: seq<Row>, text: string, resolve: string -> Resolved): seq<Note>
    requires Within(numbers, rows)
  {
    if numbers == [] then []
    else
      var n := numbers[|numbers| - 1];
      AllByHand(numbers[..|numbers| - 1], rows, text, resolve) + OfTargets(n, text, resolve(rows[n].cites).byHand)
  }

  function AllRefused(numbers: seq<nat>, rows: seq<Row>, text: string, resolve: string -> Resolved): seq<Note>
    requires Within(numbers, rows)
  {
    if numbers == [] then []
    else
      var n := numbers[|numbers| - 1];
      AllRefused(numbers[..|numbers| - 1], rows, text, resolve) + OfTargets(n, text, resolve(rows[n].cites).refused)
  }

  function PrintUnit(c: Content, text: string, numbers: seq<nat>, rows: seq<Row>, resolve: string -> Resolved): Content
    requires Within(numbers, rows)
  {
    if SomeRow(numbers, rows, IsOther) then c.(byHand := c.byHand + Handed(numbers, rows, text))
    else if Heaviest(numbers, rows).Some? then
      if SomeRow(numbers, rows, IsCovered) then c.(mixed := c.mixed + [OfUnit(text)]) else c
    else
      c.(byHand := c.byHand + AllByHand(numbers, rows, text, resolve),
         refused := c.refused + AllRefused(numbers, rows, text, resolve))
  }

  function OnUnit(numbers: seq<nat>, rows: seq<Row>, resolve: string -> Resolved): nat -> Outcome
    requires Within(numbers, rows)
  {
    (n: nat) => if n < |rows| then ResultOn(numbers, rows, resolve, n) else ByHand
  }

  function Citing(rows: seq<Row>, resolve: string -> Resolved): nat -> Outcome {
    (n: nat) => if n < |rows| then OfCited(resolve(rows[n].cites)) else ByHand
  }

  function Always(result: Outcome): nat -> Outcome {
    (n: nat) => result
  }

  function SettleUnit(outcome: map<nat, Outcome>, numbers: seq<nat>, rows: seq<Row>,
                      resolve: string -> Resolved): map<nat, Outcome>
    requires Within(numbers, rows)
  {
    SettleEach(outcome, numbers, OnUnit(numbers, rows, resolve))
  }

  /** What the rows of a text come to: perhaps an entry, and for each row the lesser of its
      outcomes so far and here. */
  method EntryFor(plan: Plan, text: string, numbers: seq<nat>, rows: seq<Row>, resolve: string -> Resolved,
                  outcome: map<nat, Outcome>) returns (entry: Option<Raw>, settled: map<nat, Outcome>)
    requires Within(numbers, rows)
    modifies plan
    ensures entry == EntryOf(text, numbers, rows, resolve)
    ensures settled == SettleUnit(outcome, numbers, rows, resolve)
    ensures plan.Now() == PrintUnit(old(plan.Now()), text, numbers, rows, resolve) && plan.error == old(plan.error)
  {
    hide SettleEach, Handed, Cited, AllByHand, AllRefused, IsOther, IsCovered, IsDebt, Distinct;
    if SomeRow(numbers, rows, IsOther) {
      settled := SettleSame(outcome, numbers, ByHand);
      SameResult(outcome, numbers, rows, resolve, ByHand);
      HandUnit(plan, text, numbers, rows);
      return None, settled;
    }
    var debt := Heaviest(numbers, rows);
    if debt.Some? {
      settled := SettleSame(outcome, numbers, Mapped);
      SameResult(outcome, numbers, rows, resolve, Mapped);
      if SomeRow(numbers, rows, IsCovered) {
        plan.mixed := plan.mixed + [OfUnit(text)];
      }
      return Some(Simple(text, ["untested:" + TagText(debt.value)])), settled;
    }
    var targets;
    targets, settled := CiteUnit(plan, text, numbers, rows, resolve, outcome);
    CitedResult(outcome, numbers, rows, resolve);
    targets := Distinct(targets);
    entry := if targets == [] then None else Some(Simple(text, targets));
  }

  method SettleSame(outcome: map<nat, Outcome>, numbers: seq<nat>, result: Outcome) returns (settled: map<nat, Outcome>)
    ensures settled == SettleEach(outcome, numbers, Always(result))
  {
    hide Settle;
    settled := outcome;
    for k := 0 to |numbers|
      invariant settled == SettleEach(outcome, numbers[..k], Always(result))
    {
      assert numbers[..k + 1][..k] == numbers[..k];
      settled := Settle(settled, numbers[k], result);
    }
    assert numbers[..|numbers|] == numbers;
  }

  method HandUnit(plan: Plan, text: string, numbers: seq<nat>, rows: seq<Row>)
    requires Within(numbers, rows)
    modifies plan
    ensures plan.Now() == old(plan.Now()).(byHand := old(plan.byHand) + Handed(numbers, rows, text))
    ensures plan.error == old(plan.error)
  {
    hide WhyNot;
    var notes: seq<Note> := [];
    for k := 0 to |numbers|
      invariant notes == Handed(numbers[..k], rows, text)
    {
      assert numbers[..k + 1][..k] == numbers[..k];
      notes := notes + [Unmapped(numbers[k], text, WhyNot(rows[numbers[k]]))];
    }
    assert numbers[..|numbers|] == numbers;
    plan.byHand := plan.byHand + notes;
  }

  method CiteUnit(plan: Plan, text: string, numbers: seq<nat>, rows: seq<Row>, resolve: string -> Resolved,
                  outcome: map<nat, Outcome>) returns (targets: seq<string>, settled: map<nat, Outcome>)
    requires Within(numbers, rows)
    modifies plan
    ensures targets == Cited(numbers, rows, resolve)
    ensures settled == SettleEach(outcome, numbers, Citing(rows, resolve))
    ensures plan.Now() == old(plan.Now()).(byHand := old(plan.byHand) + AllByHand(numbers, rows, text, resolve),
                                           refused := old(plan.refused) + AllRefused(numbers, rows, text, resolve))
    ensures plan.error == old(plan.error)
  {
    hide Settle;
    var byHand: seq<Note>, refused: seq<Note> := [], [];
    targets, settled := [], outcome;
    for k := 0 to |numbers|
      invariant targets == Cited(numbers[..k], rows, resolve)
      invariant settled == SettleEach(outcome, numbers[..k], Citing(rows, resolve))
      invariant byHand == AllByHand(numbers[..k], rows, text, resolve)
      invariant refused == AllRefused(numbers[..k], rows, text, resolve)
    {
      assert numbers[..k + 1][..k] == numbers[..k];
      var n := numbers[k];
      var mapped := resolve(rows[n].cites);
      byHand := byHand + OfTargets(n, text, mapped.byHand);
      refused := refused + OfTargets(n, text, mapped.refused);
      if mapped.targets != [] {
        settled := Settle(settled, n, Mapped);
        targets := targets + mapped.targets;
      } else if mapped.refused != [] && mapped.byHand == [] {
        settled := Settle(settled, n, Refused);
      } else {
        settled := Settle(settled, n, ByHand);
      }
    }
    assert numbers[..|numbers|] == numbers;
    plan.byHand := plan.byHand + byHand;
    plan.refused := plan.refused + refused;
  }

  lemma {:induction false} SettleAlike(outcome: map<nat, Outcome>, numbers: seq<nat>, a: nat -> Outcome,
                                       b: nat -> Outcome)
    requires forall k :: 0 <= k < |numbers| ==> a(numbers[k]) == b(numbers[k])
    ensures SettleEach(outcome, numbers, a) == SettleEach(outcome, numbers, b)
  {
    hide Settle;
    if numbers != [] {
      SettleAlike(outcome, numbers[..|numbers| - 1], a, b);
    }
  }

  lemma SameResult(outcome: map<nat, Outcome>, numbers: seq<nat>, rows: seq<Row>, resolve: string -> Resolved,
                   result: Outcome)
    requires Within(numbers, rows)
    requires forall k :: 0 <= k < |numbers| ==> ResultOn(numbers, rows, resolve, numbers[k]) == result
    ensures SettleUnit(outcome, numbers, rows, resolve) == SettleEach(outcome, numbers, Always(result))
  {
    hide ResultOn, SettleEach;
    SettleAlike(outcome, numbers, OnUnit(numbers, rows, resolve), Always(result));
  }

  lemma CitedResult(outcome: map<nat, Outcome>, numbers: seq<nat>, rows: seq<Row>, resolve: string -> Resolved)
    requires Within(numbers, rows) && !SomeRow(numbers, rows, IsOther) && Heaviest(numbers, rows).None?
    ensures SettleUnit(outcome, numbers, rows, resolve)
         == SettleEach(outcome, numbers, Citing(rows, resolve))
  {
    hide SettleEach, IsOther, SomeRow, Heaviest, OfCited;
    SettleAlike(outcome, numbers, OnUnit(numbers, rows, resolve),
                Citing(rows, resolve));
  }

  // --- The whole plan ---

  /** Every unit's rows are rows, and every unit named has them. */
  predicate RowsAreRows(rowsOf: map<string, seq<nat>>, names: seq<string>, rows: seq<Row>) {
    && (forall t :: t in rowsOf ==> Within(rowsOf[t], rows))
    && (forall k :: 0 <= k < |names| ==> names[k] in rowsOf)
  }

  lemma {:induction false} AddedAreRows(s: Stage, texts: seq<string>, n: nat, rows: seq<Row>)
    requires RowsAreRows(s.rowsOf, s.names, rows) && n < |rows|
    ensures var t := AddRows(s, texts, n); RowsAreRows(t.rowsOf, t.names, rows)
  {
    if texts != [] {
      AddedAreRows(s, texts[..|texts| - 1], n, rows);
    }
  }

  lemma {:induction false} PlacedAreRows(rows: seq<Row>, k: nat, place: nat -> Place, now: seq<string>)
    requires k <= |rows|
    ensures var s := PlaceRows(rows[..k], place, now); RowsAreRows(s.rowsOf, s.names, rows)
  {
    hide AddRows, GoesTo, PlaceRow, RowsAreRows;
    if k == 0 {
      NoRowsYet(rows);
    } else {
      PlacedAreRows(rows, k - 1, place, now);
      assert rows[..k][..k - 1] == rows[..k - 1];
      var s := PlaceRows(rows[..k - 1], place, now);
      var row, p := rows[k - 1], place(k - 1);
      var placed := PlaceRow(s, k - 1, row, p, now);
      AddRowsKeeps(s, placed, GoesTo(row, p, now), k - 1, row, p, now);
      AddedAreRows(Stage(placed.plan, s.rowsOf, s.names, placed.held), GoesTo(row, p, now), k - 1, rows);
    }
  }

  lemma NoRowsYet(rows: seq<Row>)
    ensures RowsAreRows(map[], [], rows)
  {
  }

  /** Adding rows touches nothing else. */
  lemma {:induction false} AddRowsKeeps(s: Stage, placed: Stage, texts: seq<string>, n: nat, row: Row, p: Place,
                                        now: seq<string>)
    requires placed == PlaceRow(s, n, row, p, now) && texts == GoesTo(row, p, now)
    ensures placed == AddRows(Stage(placed.plan, s.rowsOf, s.names, placed.held), texts, n)
  {
    hide AddRows, Kept, ToSet;
    var c := Tick(s.plan, Rows);
    var plan := if MustGo(row) then PlaceMustGo(c, n, p) else if texts == [] then PlaceNowhere(c, n, row, p) else c;
    OnlyRows(Stage(plan, s.rowsOf, s.names, s.held + ToSet(HeldBy(row, p))), texts, n);
  }

  lemma {:induction false} OnlyRows(s: Stage, texts: seq<string>, n: nat)
    ensures AddRows(s, texts, n).plan == s.plan && AddRows(s, texts, n).held == s.held
  {
    if texts != [] {
      OnlyRows(s, texts[..|texts| - 1], n);
    }
  }

  datatype Settling = Settling(plan: Content, outcome: map<nat, Outcome>, entries: map<string, Raw>)

  function SettleUnits(start: Content, rowsOf: map<string, seq<nat>>, names: seq<string>, rows: seq<Row>,
                       resolve: string -> Resolved): Settling
    requires RowsAreRows(rowsOf, names, rows)
  {
    if names == [] then Settling(start, map[], map[])
    else
      var n := |names| - 1;
      var s := SettleUnits(start, rowsOf, names[..n], rows, resolve);
      var entry := EntryOf(names[n], rowsOf[names[n]], rows, resolve);
      Settling(PrintUnit(s.plan, names[n], rowsOf[names[n]], rows, resolve),
               SettleUnit(s.outcome, rowsOf[names[n]], rows, resolve),
               if entry.Some? then s.entries[names[n] := entry.value] else s.entries)
  }

  function OutcomeCounts(outcome: map<nat, Outcome>, n: nat): multiset<Counter> {
    if n == 0 then multiset{}
    else OutcomeCounts(outcome, n - 1) + if n - 1 in outcome then multiset{Settled(outcome[n - 1])} else multiset{}
  }

  /** What becomes of a unit of the page. */
  datatype Fate = HasEntry(entry: Raw) | Held | New

  function FateOf(text: string, entries: map<string, Raw>, rowsOf: map<string, seq<nat>>, held: set<string>,
                  was: set<string>):
    (f: Fate)
    ensures f.HasEntry? ==> f.entry == if text in entries then entries[text] else Simple(text, ["exempt:baseline"])
  {
    if text in entries then HasEntry(entries[text])
    else if text in rowsOf || text in held then Held
    else if text !in was then New
    else HasEntry(Simple(text, ["exempt:baseline"]))
  }

  predicate IsOwed(head: string) {
    head == "exempt:baseline" || Text.Split(head, ':')[0] == "untested" || Text.Split(head, ':')[0] == "baseline"
  }

  function AddUnit(c: Content, document: string, text: string, times: nat, fate: Fate, hash: string -> string): Content
    requires fate.HasEntry? ==> NamesTargets(fate.entry)
  {
    match fate
    case New => Tick(c, NewUnits).(added := c.added + [OfUnit(text)])
    case Held => c
    case HasEntry(e) =>
      var head := e.targets.value[0];
      Tick(c, if IsOwed(head) then Debt(head) else Verified).(
        entries := c.entries + [if times > 1 then e.(count := Times(times)) else e],
        ledger := c.ledger + if Ledger.IsLedgerKind(head) then [Ledger.Line(head, document, hash(text))] else [])
  }

  predicate AllNameTargets(entries: map<string, Raw>) {
    forall t :: t in entries ==> NamesTargets(entries[t])
  }

  lemma {:induction false} SettledNameTargets(start: Content, rowsOf: map<string, seq<nat>>, names: seq<string>,
                                              rows: seq<Row>, resolve: string -> Resolved)
    requires RowsAreRows(rowsOf, names, rows)
    ensures AllNameTargets(SettleUnits(start, rowsOf, names, rows, resolve).entries)
  {
    hide PrintUnit, SettleUnit, EntryOf;
    if names != [] {
      var n := |names| - 1;
      SettledNameTargets(start, rowsOf, names[..n], rows, resolve);
      EntryNamesTargets(names[n], rowsOf[names[n]], rows, resolve);
    }
  }

  lemma EntryNamesTargets(text: string, numbers: seq<nat>, rows: seq<Row>, resolve: string -> Resolved)
    requires Within(numbers, rows)
    ensures var e := EntryOf(text, numbers, rows, resolve);
            e.Some? ==> NamesTargets(e.value) && e.value == Simple(text, e.value.targets.value)
  {
    hide SomeRow, Heaviest, Cited, Distinct;
  }

  /** What the two loops over the rows and their units leave. */
  datatype Sorted = Sorted(stage: Stage, settled: Settling)

  function AddUnits(c: Content, document: string, now: seq<string>, texts: seq<string>, entries: map<string, Raw>,
                    rowsOf: map<string, seq<nat>>, held: set<string>, was: set<string>, hash: string -> string): Content
    requires AllNameTargets(entries)
  {
    if texts == [] then c
    else
      var text := texts[|texts| - 1];
      AddUnit(AddUnits(c, document, now, texts[..|texts| - 1], entries, rowsOf, held, was, hash),
              document, text, multiset(now)[text], FateOf(text, entries, rowsOf, held, was), hash)
  }

  function SettledOf(rows: seq<Row>, place: nat -> Place, now: seq<string>, resolve: string -> Resolved): (r: Sorted)
    ensures AllNameTargets(r.settled.entries) && RowsAreRows(r.stage.rowsOf, r.stage.names, rows)
  {
    var stage := PlaceRows(rows, place, now);
    assert rows[..|rows|] == rows;
    PlacedAreRows(rows, |rows|, place, now);
    SettledNameTargets(stage.plan, stage.rowsOf, stage.names, rows, resolve);
    Sorted(stage, SettleUnits(stage.plan, stage.rowsOf, stage.names, rows, resolve))
  }

  function Finish(c: Content, now: seq<string>, was: set<string>): Content {
    c.(counts := c.counts[GoneUnits := |was - ToSet(now)|],
       byHand := Distinct(c.byHand), refused := Distinct(c.refused), mixed := Distinct(c.mixed))
  }

  function PlanOf(document: string, now: seq<string>, was: set<string>, rows: seq<Row>, place: nat -> Place,
                  resolve: string -> Resolved, hash: string -> string): Content
  {
    var s := SettledOf(rows, place, now, resolve);
    var counted := s.settled.plan.(counts := s.settled.plan.counts + OutcomeCounts(s.settled.outcome, |rows|));
    Finish(AddUnits(counted, document, now, Distinct(now), s.settled.entries, s.stage.rowsOf, s.stage.held, was,
                    hash), now, was)
  }

  method SettleAll(plan: Plan, rowsOf: map<string, seq<nat>>, names: seq<string>, rows: seq<Row>,
                   resolve: string -> Resolved)
    returns (outcome: map<nat, Outcome>, entries: map<string, Raw>)
    requires RowsAreRows(rowsOf, names, rows)
    modifies plan
    ensures Settling(plan.Now(), outcome, entries) == SettleUnits(old(plan.Now()), rowsOf, names, rows, resolve)
    ensures plan.error == old(plan.error)
  {
    hide EntryOf, SettleUnit, PrintUnit, Within, SomeRow, Heaviest;
    outcome, entries := map[], map[];
    for k := 0 to |names|
      invariant Settling(plan.Now(), outcome, entries)
                == SettleUnits(old(plan.Now()), rowsOf, names[..k], rows, resolve)
      invariant plan.error == old(plan.error)
    {
      assert names[..k + 1][..k] == names[..k];
      var entry;
      entry, outcome := EntryFor(plan, names[k], rowsOf[names[k]], rows, resolve, outcome);
      if entry.Some? {
        entries := entries[names[k] := entry.value];
      }
    }
    assert names[..|names|] == names;
  }

  method AddPageUnits(plan: Plan, document: string, now: seq<string>, order: seq<string>, entries: map<string, Raw>,
                      rowsOf: map<string, seq<nat>>, held: set<string>, was: set<string>, hash: string -> string)
    requires AllNameTargets(entries)
    modifies plan
    ensures plan.Now() == AddUnits(old(plan.Now()), document, now, order, entries, rowsOf, held, was, hash)
    ensures plan.error == old(plan.error)
  {
    hide AddUnit, FateOf;
    for k := 0 to |order|
      invariant plan.Now() == AddUnits(old(plan.Now()), document, now, order[..k], entries, rowsOf, held, was, hash)
      invariant plan.error == old(plan.error)
    {
      assert order[..k + 1][..k] == order[..k];
      AddPageUnit(plan, document, order[k], multiset(now)[order[k]], entries, rowsOf, held, was, hash);
    }
    assert order[..|order|] == order;
  }

  method AddPageUnit(plan: Plan, document: string, text: string, times: nat, entries: map<string, Raw>,
                     rowsOf: map<string, seq<nat>>, held: set<string>, was: set<string>, hash: string -> string)
    requires AllNameTargets(entries)
    modifies plan
    ensures plan.Now()
            == AddUnit(old(plan.Now()), document, text, times, FateOf(text, entries, rowsOf, held, was), hash)
    ensures plan.error == old(plan.error)
  {
    hide IsOwed, AddUnit;
    if text in entries {
      AddEntry(plan, document, text, times, entries[text], hash);
    } else if text in rowsOf || text in held {
      NothingAdded(plan.Now(), document, text, times, hash);
    } else if text !in was {
      AddNew(plan, document, text, times, hash);
    } else {
      AddEntry(plan, document, text, times, Simple(text, ["exempt:baseline"]), hash);
    }
  }

  lemma NothingAdded(c: Content, document: string, text: string, times: nat, hash: string -> string)
    ensures AddUnit(c, document, text, times, Held, hash) == c
  {
  }

  method AddNew(plan: Plan, document: string, text: string, times: nat, hash: string -> string)
    modifies plan
    ensures plan.Now() == AddUnit(old(plan.Now()), document, text, times, New, hash)
    ensures plan.error == old(plan.error)
  {
    plan.counts := plan.counts + multiset{NewUnits};
    plan.added := plan.added + [OfUnit(text)];
  }

  method AddEntry(plan: Plan, document: string, text: string, times: nat, entry: Raw, hash: string -> string)
    requires NamesTargets(entry)
    modifies plan
    ensures plan.Now() == AddUnit(old(plan.Now()), document, text, times, HasEntry(entry), hash)
    ensures plan.error == old(plan.error)
  {
    hide IsOwed;
    var head := entry.targets.value[0];
    plan.entries := plan.entries + [if times > 1 then entry.(count := Times(times)) else entry];
    plan.ledger := plan.ledger + if Ledger.IsLedgerKind(head) then [Ledger.Line(head, document, hash(text))] else [];
    plan.counts := plan.counts + multiset{if IsOwed(head) then Debt(head) else Verified};
  }

  method CountOutcomes(plan: Plan, outcome: map<nat, Outcome>, n: nat)
    modifies plan
    ensures plan.Now() == old(plan.Now()).(counts := old(plan.counts) + OutcomeCounts(outcome, n))
    ensures plan.error == old(plan.error)
  {
    var counts := plan.counts;
    for k := 0 to n
      invariant counts == plan.counts + OutcomeCounts(outcome, k)
    {
      if k in outcome {
        counts := counts + multiset{Settled(outcome[k])};
      }
    }
    plan.counts := counts;
  }

  method FinishPlan(plan: Plan, now: seq<string>, was: set<string>)
    modifies plan
    ensures plan.Now() == Finish(old(plan.Now()), now, was) && plan.error == old(plan.error)
  {
    hide Distinct;
    plan.counts := plan.counts[GoneUnits := |was - ToSet(now)|];
    plan.byHand, plan.refused, plan.mixed := Distinct(plan.byHand), Distinct(plan.refused), Distinct(plan.mixed);
  }

  /** The plan for a document: none when the page, or the page at the audit, cannot be split. */
  method PlanDocument(document: string, page: Option<seq<Unit>>, audited: Option<set<string>>, rows: seq<Row>,
                      place: nat -> Place, resolve: string -> Resolved, hash: string -> string) returns (plan: Plan)
    ensures fresh(plan)
    ensures plan.error <==> page.None? || audited.None?
    ensures plan.Now() == if page.None? || audited.None? then BLANK
                          else PlanOf(document, Texts(page.value), audited.value, rows, place, resolve, hash)
  {
    hide PlaceRows, SettleUnits, AddUnits, OutcomeCounts, Distinct, Texts, AllNameTargets, RowsAreRows, Finish;
    plan := new Plan();
    if page.None? || audited.None? {
      plan.error := true;
      return;
    }
    var now, was := Texts(page.value), audited.value;
    ghost var s := SettledOf(rows, place, now, resolve);
    var rowsOf, names, held := SortRows(plan, rows, place, now);
    var outcome, entries := SettleAll(plan, rowsOf, names, rows, resolve);
    CountOutcomes(plan, outcome, |rows|);
    AddPageUnits(plan, document, now, Distinct(now), entries, rowsOf, held, was, hash);
    FinishPlan(plan, now, was);
  }
}
