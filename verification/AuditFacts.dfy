/** Every audit row ends up somewhere, once. */
module AuditFacts {
  import opened Wrappers
  import opened AuditPlan
  import opened Sequences

  // --- Which units a row goes to ---

  /** What the first loop counts a row as, when it goes to no unit of the page. */
  function FirstClass(row: Row, p: Place, now: seq<string>): Option<Counter> {
    if MustGo(row) then
      Some(if p.onPage then OnPage
           else if MappedBy(p) == [] && LineOf(p) == [] && !p.wasOnPage then NotPlaced
           else Gone)
    else if GoesTo(row, p, now) != [] then None
    else Some(if p.inside && (row.tag.Some? || !row.covered) then OutsideUncovered
              else if p.inside then OutsideCovered
              else if MappedBy(p) != [] then UnitChanged
              else Settled(ByHand))
  }

  predicate IsRowCount(c: Counter) {
    c.OnPage? || c.Gone? || c.NotPlaced? || c.OutsideUncovered? || c.OutsideCovered? || c.UnitChanged? || c.Settled?
  }

  /** How many of the first `n` rows the first loop counts as `c`. */
  function FirstCount(rows: seq<Row>, place: nat -> Place, now: seq<string>, c: Counter, n: nat): nat
    requires n <= |rows|
  {
    if n == 0 then 0
    else FirstCount(rows, place, now, c, n - 1) + if FirstClass(rows[n - 1], place(n - 1), now) == Some(c) then 1 else 0
  }

  lemma PlaceRowCounts(s: Stage, n: nat, row: Row, p: Place, now: seq<string>, c: Counter)
    ensures var t := PlaceRow(s, n, row, p, now);
            && (IsRowCount(c) ==>
                  t.plan.counts[c] == s.plan.counts[c] + if FirstClass(row, p, now) == Some(c) then 1 else 0)
            && t.plan.counts[Rows] == s.plan.counts[Rows] + 1
            && (!IsRowCount(c) && c != Rows ==> t.plan.counts[c] == s.plan.counts[c])
  {
    hide PlaceRow, PlaceMustGo, PlaceNowhere, FirstClass, GoesTo;
    PlacedPlan(s, n, row, p, now);
    ClassIsTicked(Tick(s.plan, Rows), n, row, p, now);
    var kind := FirstClass(row, p, now);
    assert kind.Some? ==> IsRowCount(kind.value) by { ClassIsRowCount(row, p, now); }
  }

  lemma ClassIsRowCount(row: Row, p: Place, now: seq<string>)
    ensures var kind := FirstClass(row, p, now); kind.Some? ==> IsRowCount(kind.value)
  {
    hide GoesTo;
  }

  lemma ClassIsTicked(c: Content, n: nat, row: Row, p: Place, now: seq<string>)
    ensures var kind := FirstClass(row, p, now);
            if kind.None? then !MustGo(row) && GoesTo(row, p, now) != []
            else
              (MustGo(row) || GoesTo(row, p, now) == [])
              && (if MustGo(row) then PlaceMustGo(c, n, p) else PlaceNowhere(c, n, row, p)).counts
                 == c.counts + multiset{kind.value}
  {
    hide GoesTo;
  }

  /** What a row does to the plan. */
  lemma PlacedPlan(s: Stage, n: nat, row: Row, p: Place, now: seq<string>)
    ensures var c := Tick(s.plan, Rows);
            PlaceRow(s, n, row, p, now).plan
            == if MustGo(row) then PlaceMustGo(c, n, p)
               else if GoesTo(row, p, now) == [] then PlaceNowhere(c, n, row, p)
               else c
  {
    hide AddRows, Kept, ToSet, PlaceMustGo, PlaceNowhere;
    var c, texts := Tick(s.plan, Rows), GoesTo(row, p, now);
    var placed := if MustGo(row) then PlaceMustGo(c, n, p) else if texts == [] then PlaceNowhere(c, n, row, p) else c;
    OnlyRows(Stage(placed, s.rowsOf, s.names, s.held + ToSet(HeldBy(row, p))), texts, n);
  }

  lemma {:induction false} FirstLoopCounts(rows: seq<Row>, place: nat -> Place, now: seq<string>, c: Counter, n: nat)
    requires n <= |rows|
    ensures var counts := PlaceRows(rows[..n], place, now).plan.counts;
            && (IsRowCount(c) ==> counts[c] == FirstCount(rows, place, now, c, n))
            && counts[Rows] == n
            && (!IsRowCount(c) && c != Rows ==> counts[c] == 0)
  {
    hide PlaceRow, FirstClass;
    if n > 0 {
      FirstLoopCounts(rows, place, now, c, n - 1);
      assert rows[..n][..n - 1] == rows[..n - 1];
      PlaceRowCounts(PlaceRows(rows[..n - 1], place, now), n - 1, rows[n - 1], place(n - 1), now, c);
    }
  }

  // --- The units' rows ---

  /** Row `n` is one of a unit's rows. */
  predicate IsOn(s: Stage, text: string, n: nat) {
    text in s.rowsOf && n in s.rowsOf[text]
  }

  predicate NamesAreKeys(s: Stage) {
    NoRepeats(s.names) && (forall t :: t in s.names ==> t in s.rowsOf) && forall t :: t in s.rowsOf ==> t in s.names
  }

  lemma {:induction false} AddRowsIs(s: Stage, texts: seq<string>, n: nat, text: string, m: nat)
    requires NamesAreKeys(s)
    ensures var t := AddRows(s, texts, n);
            NamesAreKeys(t) && (IsOn(t, text, m) <==> IsOn(s, text, m) || (m == n && text in texts))
  {
    if texts != [] {
      var k := |texts| - 1;
      AddRowsIs(s, texts[..k], n, text, m);
      assert texts == texts[..k] + [texts[k]];
      AddRowIs(AddRows(s, texts[..k], n), texts[k], n, text, m);
    }
  }

  lemma AddRowIs(s: Stage, x: string, n: nat, text: string, m: nat)
    requires NamesAreKeys(s)
    ensures var t := AddRow(s, x, n);
            NamesAreKeys(t) && (IsOn(t, text, m) <==> IsOn(s, text, m) || (m == n && text == x))
  {
  }

  /** A unit's rows are the rows that go to it. */
  lemma {:induction false} RowsOfIs(rows: seq<Row>, place: nat -> Place, now: seq<string>, n: nat, text: string, m: nat)
    requires n <= |rows|
    ensures var s := PlaceRows(rows[..n], place, now);
            NamesAreKeys(s) && (IsOn(s, text, m) <==> m < n && text in GoesTo(rows[m], place(m), now))
  {
    hide AddRows, GoesTo, NamesAreKeys, IsOn, PlaceRow;
    if n == 0 {
      NoneOn(place, now, text, m);
    } else {
      RowsOfIs(rows, place, now, n - 1, text, m);
      assert rows[..n][..n - 1] == rows[..n - 1];
      var s := PlaceRows(rows[..n - 1], place, now);
      PlaceRowIs(s, n - 1, rows[n - 1], place(n - 1), now, text, m);
    }
  }

  lemma NoneOn(place: nat -> Place, now: seq<string>, text: string, m: nat)
    ensures var s := PlaceRows([], place, now); NamesAreKeys(s) && !IsOn(s, text, m)
  {
  }

  lemma PlaceRowIs(s: Stage, n: nat, row: Row, p: Place, now: seq<string>, text: string, m: nat)
    requires NamesAreKeys(s)
    ensures var t := PlaceRow(s, n, row, p, now);
            NamesAreKeys(t) && (IsOn(t, text, m) <==> IsOn(s, text, m) || (m == n && text in GoesTo(row, p, now)))
  {
    hide AddRows, GoesTo, PlaceRow;
    var t := PlaceRow(s, n, row, p, now);
    AddRowsKeeps(s, t, GoesTo(row, p, now), n, row, p, now);
    AddRowsIs(Stage(t.plan, s.rowsOf, s.names, t.held), GoesTo(row, p, now), n, text, m);
  }

  /** Some row of this sort goes to the unit. */
  ghost predicate Goes(rows: seq<Row>, place: nat -> Place, now: seq<string>, text: string, test: Row -> bool) {
    exists m: nat :: m < |rows| && text in GoesTo(rows[m], place(m), now) && test(rows[m])
  }

  predicate Any(row: Row) {
    true
  }

  /** What is asked of a unit's rows is asked of the rows that go to it. */
  lemma SomeRowIs(rows: seq<Row>, place: nat -> Place, now: seq<string>, text: string, test: Row -> bool)
    requires var rowsOf := PlaceRows(rows, place, now).rowsOf; text in rowsOf && Within(rowsOf[text], rows)
    ensures SomeRow(PlaceRows(rows, place, now).rowsOf[text], rows, test) <==> Goes(rows, place, now, text, test)
  {
    hide PlaceRows, GoesTo;
    assert rows[..|rows|] == rows;
    var numbers := PlaceRows(rows, place, now).rowsOf[text];
    if SomeRow(numbers, rows, test) {
      var k :| 0 <= k < |numbers| && test(rows[numbers[k]]);
      RowsOfIs(rows, place, now, |rows|, text, numbers[k]);
    }
    if Goes(rows, place, now, text, test) {
      var m: nat :| m < |rows| && text in GoesTo(rows[m], place(m), now) && test(rows[m]);
      RowsOfIs(rows, place, now, |rows|, text, m);
      var k :| 0 <= k < |numbers| && numbers[k] == m;
      assert test(rows[numbers[k]]);
    }
  }

  lemma HeaviestIsDebt(numbers: seq<nat>, rows: seq<Row>)
    requires Within(numbers, rows)
    ensures Heaviest(numbers, rows).Some? <==> SomeRow(numbers, rows, IsDebt)
  {
    if SomeRow(numbers, rows, IsDebt) {
      var k :| 0 <= k < |numbers| && IsDebt(rows[numbers[k]]);
      assert Tagged(A)(rows[numbers[k]]) || Tagged(S)(rows[numbers[k]]) || Tagged(T)(rows[numbers[k]]);
    }
  }

  /** The units held back are those of the rows that hold them. */
  lemma {:induction false} HeldIs(rows: seq<Row>, place: nat -> Place, now: seq<string>, n: nat, text: string)
    requires n <= |rows|
    ensures text in PlaceRows(rows[..n], place, now).held
            <==> exists m :: 0 <= m < n && text in HeldBy(rows[m], place(m))
  {
    hide AddRows, HeldBy, GoesTo, PlaceMustGo, PlaceNowhere;
    if n > 0 {
      HeldIs(rows, place, now, n - 1, text);
      assert rows[..n][..n - 1] == rows[..n - 1];
      HeldNext(PlaceRows(rows[..n - 1], place, now), n - 1, rows[n - 1], place(n - 1), now);
    }
  }

  lemma HeldNext(s: Stage, n: nat, row: Row, p: Place, now: seq<string>)
    ensures PlaceRow(s, n, row, p, now).held == s.held + ToSet(HeldBy(row, p))
  {
    hide AddRows, Kept, ToSet, PlaceMustGo, PlaceNowhere, HeldBy, GoesTo;
    var c, texts := Tick(s.plan, Rows), GoesTo(row, p, now);
    var placed := if MustGo(row) then PlaceMustGo(c, n, p) else if texts == [] then PlaceNowhere(c, n, row, p) else c;
    OnlyRows(Stage(placed, s.rowsOf, s.names, s.held + ToSet(HeldBy(row, p))), texts, n);
  }

  // --- Outcomes ---

  lemma {:induction false} SettleEachIs(outcome: map<nat, Outcome>, numbers: seq<nat>, result: nat -> Outcome, n: nat)
    ensures var now := SettleEach(outcome, numbers, result);
            && (n in now <==> n in outcome || n in numbers)
            && (n in numbers ==> now[n] == Least(if n in outcome then outcome[n] else ByHand, result(n)))
            && (n in outcome && n !in numbers ==> now[n] == outcome[n])
  {
    if numbers != [] {
      var k := |numbers| - 1;
      SettleEachIs(outcome, numbers[..k], result, n);
      assert numbers == numbers[..k] + [numbers[k]];
    }
  }

  /** The least outcome a row gets on the first `k` units, if it is on one of them. */
  function LeastOn(rowsOf: map<string, seq<nat>>, names: seq<string>, rows: seq<Row>, resolve: string -> Resolved,
                   n: nat):
    Option<Outcome>
    requires RowsAreRows(rowsOf, names, rows) && n < |rows|
  {
    if names == [] then None
    else
      var k := |names| - 1;
      var before := LeastOn(rowsOf, names[..k], rows, resolve, n);
      if n !in rowsOf[names[k]] then before
      else Some(Least(if before.Some? then before.value else ByHand, ResultOn(rowsOf[names[k]], rows, resolve, n)))
  }

  lemma {:induction false} OutcomeIs(start: Content, rowsOf: map<string, seq<nat>>, names: seq<string>, rows: seq<Row>,
                                     resolve: string -> Resolved, n: nat)
    requires RowsAreRows(rowsOf, names, rows) && n < |rows|
    ensures var outcome := SettleUnits(start, rowsOf, names, rows, resolve).outcome;
            var least := LeastOn(rowsOf, names, rows, resolve, n);
            (n in outcome <==> least.Some?) && (least.Some? ==> outcome[n] == least.value)
  {
    hide PrintUnit, EntryOf, ResultOn, SettleEach;
    if names != [] {
      var k := |names| - 1;
      OutcomeIs(start, rowsOf, names[..k], rows, resolve, n);
      var before := SettleUnits(start, rowsOf, names[..k], rows, resolve).outcome;
      SettleEachIs(before, rowsOf[names[k]], OnUnit(rowsOf[names[k]], rows, resolve), n);
    }
  }

  /** The least over the units it is on, and no unit gives less. */
  lemma {:induction false} LeastOnIs(rowsOf: map<string, seq<nat>>, names: seq<string>, rows: seq<Row>,
                                     resolve: string -> Resolved, n: nat, k: nat)
    requires RowsAreRows(rowsOf, names, rows) && n < |rows|
    ensures var least := LeastOn(rowsOf, names, rows, resolve, n);
            && (k < |names| && n in rowsOf[names[k]] ==>
                  least.Some? && Rank(least.value) <= Rank(ResultOn(rowsOf[names[k]], rows, resolve, n)))
            && (least.Some? ==> exists j :: 0 <= j < |names| && n in rowsOf[names[j]]
                                            && ResultOn(rowsOf[names[j]], rows, resolve, n) == least.value)
  {
    hide ResultOn;
    if names != [] {
      var last := |names| - 1;
      LeastOnIs(rowsOf, names[..last], rows, resolve, n, k);
      var before := LeastOn(rowsOf, names[..last], rows, resolve, n);
      if before.Some? {
        var j :| 0 <= j < last && n in rowsOf[names[..last][j]]
                 && ResultOn(rowsOf[names[..last][j]], rows, resolve, n) == before.value;
        assert names[j] == names[..last][j];
      }
      assert k < last ==> names[k] == names[..last][k];
    }
  }
}
