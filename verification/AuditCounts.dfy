/** The audit's rows are conserved: each is counted once, as the least outcome over its units. */
module AuditCounts {
  import opened Wrappers
  import opened Registry
  import opened AuditPlan
  import opened AuditFacts

  /** What a row ends up counted as. */
  function FinalClass(s: Sorted, row: Row, p: Place, now: seq<string>, n: nat): Counter {
    var first := FirstClass(row, p, now);
    if first.Some? then first.value
    else if n in s.settled.outcome then Settled(s.settled.outcome[n])
    else Rows
  }

  /** How many of the first `n` rows end up counted as `c`. */
  function FinalCount(s: Sorted, rows: seq<Row>, place: nat -> Place, now: seq<string>, c: Counter, n: nat): nat
    requires n <= |rows|
  {
    if n == 0 then 0
    else
      FinalCount(s, rows, place, now, c, n - 1)
      + if FinalClass(s, rows[n - 1], place(n - 1), now, n - 1) == c then 1 else 0
  }

  /** A row has an outcome exactly when it goes to a unit of the page. */
  lemma HasOutcome(rows: seq<Row>, place: nat -> Place, now: seq<string>, resolve: string -> Resolved, n: nat)
    requires n < |rows|
    ensures var s := SettledOf(rows, place, now, resolve);
            n in s.settled.outcome <==> FirstClass(rows[n], place(n), now).None?
  {
    hide PlaceRows, SettleUnits, GoesTo, LeastOn, AllNameTargets, NamesAreKeys, ResultOn, Within;
    var s := SettledOf(rows, place, now, resolve);
    var stage := s.stage;
    assert rows[..|rows|] == rows;
    var texts := GoesTo(rows[n], place(n), now);
    OutcomeIs(stage.plan, stage.rowsOf, stage.names, rows, resolve, n);
    MustGoGoesNowhere(rows[n], place(n), now);
    if texts != [] {
      RowsOfIs(rows, place, now, |rows|, texts[0], n);
      var k := NameOf(stage, texts[0]);
      LeastOnIs(stage.rowsOf, stage.names, rows, resolve, n, k);
    }
    LeastOnIs(stage.rowsOf, stage.names, rows, resolve, n, 0);
    if n in s.settled.outcome {
      var j :| 0 <= j < |stage.names| && n in stage.rowsOf[stage.names[j]];
      RowsOfIs(rows, place, now, |rows|, stage.names[j], n);
    }
  }

  lemma MustGoGoesNowhere(row: Row, p: Place, now: seq<string>)
    ensures FirstClass(row, p, now).None? <==> GoesTo(row, p, now) != []
  {
    hide Kept;
  }

  lemma NameOf(s: Stage, text: string) returns (k: nat)
    requires NamesAreKeys(s) && text in s.rowsOf
    ensures k < |s.names| && s.names[k] == text
  {
    k :| 0 <= k < |s.names| && s.names[k] == text;
  }

  // --- The counts of the later loops ---

  lemma {:induction false} SettlingKeepsCounts(start: Content, rowsOf: map<string, seq<nat>>, names: seq<string>,
                                               rows: seq<Row>, resolve: string -> Resolved)
    requires RowsAreRows(rowsOf, names, rows)
    ensures SettleUnits(start, rowsOf, names, rows, resolve).plan.counts == start.counts
  {
    hide EntryOf, SettleUnit;
    if names != [] {
      SettlingKeepsCounts(start, rowsOf, names[..|names| - 1], rows, resolve);
    }
  }

  lemma {:induction false} UnitsKeepCounts(c: Content, document: string, now: seq<string>, texts: seq<string>,
                                           entries: map<string, Raw>, rowsOf: map<string, seq<nat>>, held: set<string>,
                                           was: set<string>, hash: string -> string, counter: Counter)
    requires AllNameTargets(entries) && (IsRowCount(counter) || counter == Rows)
    ensures AddUnits(c, document, now, texts, entries, rowsOf, held, was, hash).counts[counter] == c.counts[counter]
  {
    hide FateOf;
    if texts != [] {
      UnitsKeepCounts(c, document, now, texts[..|texts| - 1], entries, rowsOf, held, was, hash, counter);
    }
  }

  lemma {:induction false} CountsAdd(s: Sorted, rows: seq<Row>, place: nat -> Place, now: seq<string>, c: Counter,
                                     n: nat)
    requires n <= |rows| && IsRowCount(c)
    requires forall k :: 0 <= k < n ==> (k in s.settled.outcome <==> FirstClass(rows[k], place(k), now).None?)
    ensures FinalCount(s, rows, place, now, c, n)
         == FirstCount(rows, place, now, c, n) + OutcomeCounts(s.settled.outcome, n)[c]
  {
    hide OutcomeCounts, FirstClass, FinalClass;
    if n == 0 {
      NoOutcomes(s.settled.outcome, c);
    } else {
      CountsAdd(s, rows, place, now, c, n - 1);
      OutcomeNext(s.settled.outcome, n - 1, c);
      OneClass(s, rows[n - 1], place(n - 1), now, n - 1, c);
    }
  }

  lemma NoOutcomes(outcome: map<nat, Outcome>, c: Counter)
    ensures OutcomeCounts(outcome, 0)[c] == 0
  {
  }

  lemma OutcomeNext(outcome: map<nat, Outcome>, n: nat, c: Counter)
    ensures OutcomeCounts(outcome, n + 1)[c]
         == OutcomeCounts(outcome, n)[c] + if n in outcome && Settled(outcome[n]) == c then 1 else 0
  {
  }

  lemma OneClass(s: Sorted, row: Row, p: Place, now: seq<string>, n: nat, c: Counter)
    requires IsRowCount(c) && (n in s.settled.outcome <==> FirstClass(row, p, now).None?)
    ensures (if FinalClass(s, row, p, now, n) == c then 1 else 0)
         == (if FirstClass(row, p, now) == Some(c) then 1 else 0)
            + (if n in s.settled.outcome && Settled(s.settled.outcome[n]) == c then 1 else 0)
  {
    hide FirstClass;
  }

  lemma {:induction false} NoRowsAmong(outcome: map<nat, Outcome>, n: nat)
    ensures OutcomeCounts(outcome, n)[Rows] == 0
  {
    if n > 0 {
      NoRowsAmong(outcome, n - 1);
    }
  }

  /** Each count of a plan is the number of rows that end up there. */
  lemma CountIsExact(document: string, now: seq<string>, was: set<string>, rows: seq<Row>, place: nat -> Place,
                     resolve: string -> Resolved, hash: string -> string, c: Counter)
    requires IsRowCount(c)
    ensures var s := SettledOf(rows, place, now, resolve);
            var counts := PlanOf(document, now, was, rows, place, resolve, hash).counts;
            counts[c] == FinalCount(s, rows, place, now, c, |rows|) && counts[Rows] == |rows|
  {
    hide PlaceRows, SettleUnits, AddUnits, FirstClass, OutcomeCounts, FinalCount, RowsAreRows, AllNameTargets, Distinct;
    var s := SettledOf(rows, place, now, resolve);
    var stage := s.stage;
    assert rows[..|rows|] == rows;
    FirstLoopCounts(rows, place, now, c, |rows|);
    SettlingKeepsCounts(stage.plan, stage.rowsOf, stage.names, rows, resolve);
    forall k: nat | k < |rows|
      ensures k in s.settled.outcome <==> FirstClass(rows[k], place(k), now).None?
    {
      HasOutcome(rows, place, now, resolve, k);
    }
    CountsAdd(s, rows, place, now, c, |rows|);
    NoRowsAmong(s.settled.outcome, |rows|);
    var counted := s.settled.plan.(counts := s.settled.plan.counts + OutcomeCounts(s.settled.outcome, |rows|));
    UnitsKeepCounts(counted, document, now, Distinct(now), s.settled.entries, stage.rowsOf, stage.held, was, hash, c);
    UnitsKeepCounts(counted, document, now, Distinct(now), s.settled.entries, stage.rowsOf, stage.held, was, hash,
                    Rows);
  }

  /** The sum over the nine counts of rows. */
  function NineOf(counts: Counter -> nat): nat {
    counts(OnPage) + counts(Gone) + counts(NotPlaced) + counts(OutsideUncovered) + counts(OutsideCovered)
    + counts(UnitChanged) + counts(Settled(Mapped)) + counts(Settled(Refused)) + counts(Settled(ByHand))
  }

  lemma {:induction false} EachOnce(s: Sorted, rows: seq<Row>, place: nat -> Place, now: seq<string>, n: nat)
    requires n <= |rows|
    requires forall k :: 0 <= k < n ==> IsRowCount(FinalClass(s, rows[k], place(k), now, k))
    ensures NineOf(c => FinalCount(s, rows, place, now, c, n)) == n
  {
    hide FinalClass;
    if n > 0 {
      EachOnce(s, rows, place, now, n - 1);
      var kind := FinalClass(s, rows[n - 1], place(n - 1), now, n - 1);
      assert kind.Settled? ==> kind.outcome.Mapped? || kind.outcome.Refused? || kind.outcome.ByHand?;
    }
  }

  /** Conservation: the rows are as many as the nine counts together, each row in exactly one. */
  lemma RowsAreConserved(document: string, now: seq<string>, was: set<string>, rows: seq<Row>, place: nat -> Place,
                         resolve: string -> Resolved, hash: string -> string)
    ensures var counts := PlanOf(document, now, was, rows, place, resolve, hash).counts;
            counts[Rows] == |rows| == NineOf(c => counts[c])
  {
    hide PlanOf, FinalClass, FirstClass, SettledOf, FinalCount;
    var s := SettledOf(rows, place, now, resolve);
    var counts := PlanOf(document, now, was, rows, place, resolve, hash).counts;
    forall k: nat | k < |rows|
      ensures IsRowCount(FinalClass(s, rows[k], place(k), now, k))
    {
      HasOutcome(rows, place, now, resolve, k);
      FinalIsRowCount(s, rows[k], place(k), now, k);
    }
    EachOnce(s, rows, place, now, |rows|);
    forall c: Counter | IsRowCount(c)
      ensures counts[c] == FinalCount(s, rows, place, now, c, |rows|) && counts[Rows] == |rows|
    {
      CountIsExact(document, now, was, rows, place, resolve, hash, c);
    }
    assert counts[OnPage] == FinalCount(s, rows, place, now, OnPage, |rows|);
  }

  lemma FinalIsRowCount(s: Sorted, row: Row, p: Place, now: seq<string>, n: nat)
    requires n in s.settled.outcome <==> FirstClass(row, p, now).None?
    ensures IsRowCount(FinalClass(s, row, p, now, n))
  {
    hide GoesTo;
    ClassIsRowCount(row, p, now);
  }

  /** A row on several units takes the least outcome any of them gives it. */
  lemma OutcomeIsLeast(rows: seq<Row>, place: nat -> Place, now: seq<string>, resolve: string -> Resolved, n: nat)
    requires n < |rows| && GoesTo(rows[n], place(n), now) != []
    ensures var s := SettledOf(rows, place, now, resolve);
            && n in s.settled.outcome
            && (exists t :: t in GoesTo(rows[n], place(n), now) && t in s.stage.rowsOf
                  && s.settled.outcome[n] == ResultOn(s.stage.rowsOf[t], rows, resolve, n))
            && forall t :: t in GoesTo(rows[n], place(n), now) ==>
                  t in s.stage.rowsOf
                  && Rank(s.settled.outcome[n]) <= Rank(ResultOn(s.stage.rowsOf[t], rows, resolve, n))
  {
    hide PlaceRows, SettleUnits, GoesTo, LeastOn, NamesAreKeys, AllNameTargets, ResultOn, FirstClass;
    var s := SettledOf(rows, place, now, resolve);
    var stage := s.stage;
    assert rows[..|rows|] == rows;
    HasOutcome(rows, place, now, resolve, n);
    MustGoGoesNowhere(rows[n], place(n), now);
    OutcomeIs(stage.plan, stage.rowsOf, stage.names, rows, resolve, n);
    LeastOnIs(stage.rowsOf, stage.names, rows, resolve, n, 0);
    var j :| 0 <= j < |stage.names| && n in stage.rowsOf[stage.names[j]]
             && ResultOn(stage.rowsOf[stage.names[j]], rows, resolve, n) == s.settled.outcome[n];
    RowsOfIs(rows, place, now, |rows|, stage.names[j], n);
    forall t | t in GoesTo(rows[n], place(n), now)
      ensures t in stage.rowsOf && Rank(s.settled.outcome[n]) <= Rank(ResultOn(stage.rowsOf[t], rows, resolve, n))
    {
      RowsOfIs(rows, place, now, |rows|, t, n);
      var k := NameOf(stage, t);
      LeastOnIs(stage.rowsOf, stage.names, rows, resolve, n, k);
    }
  }
}
