/** Which audit rows the generator prints for the author. */
module AuditPrinted {
  import opened Wrappers
  import opened Registry
  import opened AuditPlan
  import opened AuditFacts
  import opened AuditCounts
  import Ordering

  predicate About(note: Note, n: nat) {
    match note
    case OfUnit(_) => false
    case _ => note.row == n
  }

  predicate Mentions(notes: seq<Note>, n: nat) {
    exists note :: note in notes && About(note, n)
  }

  // --- The first loop ---

  lemma PlaceRowPrints(s: Stage, n: nat, row: Row, p: Place, now: seq<string>)
    ensures var c, t, kind := s.plan, PlaceRow(s, n, row, p, now).plan, FirstClass(row, p, now);
            && t.present == c.present + (if kind == Some(OnPage) then [OfRow(n)] else [])
            && t.unplaced == c.unplaced + (if kind == Some(NotPlaced) then [OfRow(n)] else [])
            && t.outside == c.outside + (if kind == Some(OutsideUncovered) then [OfRow(n)] else [])
            && t.byHand == c.byHand + (if kind == Some(Settled(ByHand)) then [NoteOf(n, p)] else [])
            && t.refused == c.refused
  {
    hide PlaceRow, GoesTo;
    PlacedPlan(s, n, row, p, now);
  }

  function NoteOf(n: nat, p: Place): Note {
    if LineOf(p) == [] then NoUnit(n) else SeveralUnits(n)
  }

  /** Each row the first loop settles is in its own list, and in no other. */
  lemma {:induction false} FirstLoopPrints(rows: seq<Row>, place: nat -> Place, now: seq<string>, k: nat, n: nat)
    requires k <= |rows|
    ensures var c := PlaceRows(rows[..k], place, now).plan;
            && (Mentions(c.present, n) <==> n < k && FirstClass(rows[n], place(n), now) == Some(OnPage))
            && (Mentions(c.unplaced, n) <==> n < k && FirstClass(rows[n], place(n), now) == Some(NotPlaced))
            && (Mentions(c.outside, n) <==> n < k && FirstClass(rows[n], place(n), now) == Some(OutsideUncovered))
            && (Mentions(c.byHand, n) <==> n < k && FirstClass(rows[n], place(n), now) == Some(Settled(ByHand)))
            && c.refused == []
  {
    hide PlaceRow, FirstClass, Mentions;
    if k == 0 {
      NoneMentioned(n);
    } else {
      FirstLoopPrints(rows, place, now, k - 1, n);
      assert rows[..k][..k - 1] == rows[..k - 1];
      var s, kind := PlaceRows(rows[..k - 1], place, now), FirstClass(rows[k - 1], place(k - 1), now);
      PlaceRowPrints(s, k - 1, rows[k - 1], place(k - 1), now);
      OneMore(s.plan.present, OfRow(k - 1), kind == Some(OnPage), n);
      OneMore(s.plan.unplaced, OfRow(k - 1), kind == Some(NotPlaced), n);
      OneMore(s.plan.outside, OfRow(k - 1), kind == Some(OutsideUncovered), n);
      OneMore(s.plan.byHand, NoteOf(k - 1, place(k - 1)), kind == Some(Settled(ByHand)), n);
    }
  }

  lemma NoneMentioned(n: nat)
    ensures !Mentions([], n)
  {
  }

  lemma OneMore(notes: seq<Note>, note: Note, when: bool, n: nat)
    ensures Mentions(notes + (if when then [note] else []), n) <==> Mentions(notes, n) || (when && About(note, n))
  {
    MentionsAppend(notes, if when then [note] else [], n);
    assert note in [note];
  }

  lemma MentionsAppend(a: seq<Note>, b: seq<Note>, n: nat)
    ensures Mentions(a + b, n) <==> Mentions(a, n) || Mentions(b, n)
  {
    if Mentions(a, n) {
      var note :| note in a && About(note, n);
      assert note in a + b;
    }
    if Mentions(b, n) {
      var note :| note in b && About(note, n);
      assert note in a + b;
    }
  }

  // --- The units ---

  lemma {:induction false} HandedMentions(numbers: seq<nat>, rows: seq<Row>, text: string, n: nat)
    requires Within(numbers, rows)
    ensures Mentions(Handed(numbers, rows, text), n) <==> n in numbers
  {
    hide Mentions;
    if numbers == [] {
      NoneMentioned(n);
    } else {
      var k := |numbers| - 1;
      HandedMentions(numbers[..k], rows, text, n);
      assert numbers == numbers[..k] + [numbers[k]];
      OneMore(Handed(numbers[..k], rows, text), Unmapped(numbers[k], text, WhyNot(rows[numbers[k]])), true, n);
    }
  }

  lemma TargetsMention(m: nat, text: string, problems: seq<string>, n: nat)
    ensures Mentions(OfTargets(m, text, problems), n) <==> m == n && problems != []
  {
    var notes := OfTargets(m, text, problems);
    if problems != [] {
      assert notes[0] in notes;
    }
  }

  lemma {:induction false} TargetNotesMention(numbers: seq<nat>, rows: seq<Row>, text: string,
                                              resolve: string -> Resolved, n: nat)
    requires Within(numbers, rows) && n < |rows|
    ensures Mentions(AllByHand(numbers, rows, text, resolve), n)
            <==> n in numbers && resolve(rows[n].cites).byHand != []
    ensures Mentions(AllRefused(numbers, rows, text, resolve), n)
            <==> n in numbers && resolve(rows[n].cites).refused != []
  {
    hide Mentions, OfTargets;
    if numbers == [] {
      NoneMentioned(n);
    } else {
      var k := |numbers| - 1;
      var m := numbers[k];
      TargetNotesMention(numbers[..k], rows, text, resolve, n);
      assert numbers == numbers[..k] + [m];
      MentionsAppend(AllByHand(numbers[..k], rows, text, resolve),
                     OfTargets(m, text, resolve(rows[m].cites).byHand), n);
      MentionsAppend(AllRefused(numbers[..k], rows, text, resolve),
                     OfTargets(m, text, resolve(rows[m].cites).refused), n);
      TargetsMention(m, text, resolve(rows[m].cites).byHand, n);
      TargetsMention(m, text, resolve(rows[m].cites).refused, n);
    }
  }

  /** A unit leaves a row to hand in so many words. */
  predicate Speaks(numbers: seq<nat>, rows: seq<Row>, resolve: string -> Resolved, n: nat)
    requires Within(numbers, rows) && n < |rows|
  {
    SomeRow(numbers, rows, IsOther) || (Heaviest(numbers, rows).None? && resolve(rows[n].cites).byHand != [])
  }

  lemma {:induction false} UnitsMention(start: Content, rowsOf: map<string, seq<nat>>, names: seq<string>,
                                        rows: seq<Row>, resolve: string -> Resolved, n: nat)
    requires RowsAreRows(rowsOf, names, rows) && n < |rows|
    ensures var c := SettleUnits(start, rowsOf, names, rows, resolve).plan;
            && (Mentions(c.byHand, n)
                <==> (Mentions(start.byHand, n)
                      || exists j :: 0 <= j < |names| && n in rowsOf[names[j]]
                                     && Speaks(rowsOf[names[j]], rows, resolve, n)))
            && (Mentions(c.refused, n)
                <==> (Mentions(start.refused, n)
                      || exists j :: 0 <= j < |names| && n in rowsOf[names[j]]
                                     && Refuses(rowsOf[names[j]], rows, resolve, n)))
            && c.present == start.present && c.unplaced == start.unplaced && c.outside == start.outside
  {
    hide Mentions, EntryOf, SettleUnit, Speaks, Refuses, PrintUnit, Within;
    if names != [] {
      var k := |names| - 1;
      var numbers := rowsOf[names[k]];
      var before := SettleUnits(start, rowsOf, names[..k], rows, resolve).plan;
      UnitsMention(start, rowsOf, names[..k], rows, resolve, n);
      UnitMentions(before, names[k], numbers, rows, resolve, n);
      assert forall j :: 0 <= j < k ==> names[j] == names[..k][j];
      if exists j :: 0 <= j < |names| && n in rowsOf[names[j]] && Speaks(rowsOf[names[j]], rows, resolve, n) {
        var j :| 0 <= j < |names| && n in rowsOf[names[j]] && Speaks(rowsOf[names[j]], rows, resolve, n);
        assert j < k ==> n in rowsOf[names[..k][j]] && Speaks(rowsOf[names[..k][j]], rows, resolve, n);
      }
      if exists j :: 0 <= j < |names| && n in rowsOf[names[j]] && Refuses(rowsOf[names[j]], rows, resolve, n) {
        var j :| 0 <= j < |names| && n in rowsOf[names[j]] && Refuses(rowsOf[names[j]], rows, resolve, n);
        assert j < k ==> n in rowsOf[names[..k][j]] && Refuses(rowsOf[names[..k][j]], rows, resolve, n);
      }
    }
  }

  predicate Refuses(numbers: seq<nat>, rows: seq<Row>, resolve: string -> Resolved, n: nat)
    requires Within(numbers, rows) && n < |rows|
  {
    !SomeRow(numbers, rows, IsOther) && Heaviest(numbers, rows).None? && resolve(rows[n].cites).refused != []
  }

  lemma UnitMentions(c: Content, text: string, numbers: seq<nat>, rows: seq<Row>, resolve: string -> Resolved, n: nat)
    requires Within(numbers, rows) && n < |rows|
    ensures var d := PrintUnit(c, text, numbers, rows, resolve);
            && (Mentions(d.byHand, n) <==> Mentions(c.byHand, n) || (n in numbers && Speaks(numbers, rows, resolve, n)))
            && (Mentions(d.refused, n)
                <==> Mentions(c.refused, n) || (n in numbers && Refuses(numbers, rows, resolve, n)))
            && d.present == c.present && d.unplaced == c.unplaced && d.outside == c.outside
  {
    hide Mentions, SomeRow, Heaviest, Handed, AllByHand, AllRefused;
    HandedMentions(numbers, rows, text, n);
    TargetNotesMention(numbers, rows, text, resolve, n);
    MentionsAppend(c.byHand, Handed(numbers, rows, text), n);
    MentionsAppend(c.byHand, AllByHand(numbers, rows, text, resolve), n);
    MentionsAppend(c.refused, AllRefused(numbers, rows, text, resolve), n);
  }

  // --- The whole plan ---

  lemma {:induction false} UnitsPrintElsewhere(c: Content, document: string, now: seq<string>, texts: seq<string>,
                                               entries: map<string, Raw>, rowsOf: map<string, seq<nat>>,
                                               held: set<string>, was: set<string>, hash: string -> string)
    requires AllNameTargets(entries)
    ensures var d := AddUnits(c, document, now, texts, entries, rowsOf, held, was, hash);
            && d.present == c.present && d.unplaced == c.unplaced && d.outside == c.outside
            && d.byHand == c.byHand && d.refused == c.refused
  {
    hide FateOf;
    if texts != [] {
      UnitsPrintElsewhere(c, document, now, texts[..|texts| - 1], entries, rowsOf, held, was, hash);
    }
  }

  lemma DistinctMentions(notes: seq<Note>, n: nat)
    ensures Mentions(Distinct(notes), n) <==> Mentions(notes, n)
  {
    hide Distinct;
    if Mentions(notes, n) {
      var note :| note in notes && About(note, n);
      assert note in Distinct(notes);
    }
  }

  lemma PlanPrints(document: string, now: seq<string>, was: set<string>, rows: seq<Row>, place: nat -> Place,
                   resolve: string -> Resolved, hash: string -> string, n: nat)
    ensures var s, plan := SettledOf(rows, place, now, resolve), PlanOf(document, now, was, rows, place, resolve, hash);
            && plan.present == s.settled.plan.present && plan.unplaced == s.settled.plan.unplaced
            && plan.outside == s.settled.plan.outside
            && (Mentions(plan.byHand, n) <==> Mentions(s.settled.plan.byHand, n))
            && (Mentions(plan.refused, n) <==> Mentions(s.settled.plan.refused, n))
  {
    hide SettledOf, AddUnits, OutcomeCounts, Distinct, Mentions, AllNameTargets, RowsAreRows;
    var s := SettledOf(rows, place, now, resolve);
    var counted := s.settled.plan.(counts := s.settled.plan.counts + OutcomeCounts(s.settled.outcome, |rows|));
    UnitsPrintElsewhere(counted, document, now, Distinct(now), s.settled.entries, s.stage.rowsOf, s.stage.held, was,
                        hash);
    DistinctMentions(s.settled.plan.byHand, n);
    DistinctMentions(s.settled.plan.refused, n);
  }

  /** In the reader's own terms, a row that its `by` says nothing about. */
  predicate SilentIn(s: Sorted, rows: seq<Row>, resolve: string -> Resolved, n: nat)
    requires RowsAreRows(s.stage.rowsOf, s.stage.names, rows) && n < |rows|
  {
    && (forall t :: t in s.stage.rowsOf && n in s.stage.rowsOf[t] ==> !SomeRow(s.stage.rowsOf[t], rows, IsOther))
    && resolve(rows[n].cites) == Resolved([], [], [])
  }

  /** A row that its `by` says nothing about: no row that must be mapped by hand goes to a unit
      it goes to, and its `by` resolves to no target, no problem and no refusal. */
  ghost predicate Silent(rows: seq<Row>, place: nat -> Place, now: seq<string>, resolve: string -> Resolved, n: nat)
    requires n < |rows|
  {
    && (forall t :: t in GoesTo(rows[n], place(n), now) ==> !Goes(rows, place, now, t, IsOther))
    && resolve(rows[n].cites) == Resolved([], [], [])
  }

  /** A unit the row goes to leaves it to hand in so many words. */
  ghost predicate HandedBy(rows: seq<Row>, place: nat -> Place, now: seq<string>, resolve: string -> Resolved, n: nat,
                           text: string)
    requires n < |rows|
  {
    && text in GoesTo(rows[n], place(n), now)
    && (Goes(rows, place, now, text, IsOther)
        || (!Goes(rows, place, now, text, IsDebt) && resolve(rows[n].cites).byHand != []))
  }

  /** A unit the row goes to refuses what its `by` names. */
  ghost predicate RefusedBy(rows: seq<Row>, place: nat -> Place, now: seq<string>, resolve: string -> Resolved,
                            n: nat, text: string)
    requires n < |rows|
  {
    && text in GoesTo(rows[n], place(n), now) && resolve(rows[n].cites).refused != []
    && !Goes(rows, place, now, text, IsOther) && !Goes(rows, place, now, text, IsDebt)
  }

  ghost predicate LeftToHand(rows: seq<Row>, place: nat -> Place, now: seq<string>, resolve: string -> Resolved, n: nat)
    requires n < |rows|
  {
    exists t :: HandedBy(rows, place, now, resolve, n, t)
  }

  ghost predicate TurnedDown(rows: seq<Row>, place: nat -> Place, now: seq<string>, resolve: string -> Resolved, n: nat)
    requires n < |rows|
  {
    exists t :: RefusedBy(rows, place, now, resolve, n, t)
  }

  /** Which printed lists a row is in, for every row. */
  lemma RowsAreListed(document: string, now: seq<string>, was: set<string>, rows: seq<Row>, place: nat -> Place,
                      resolve: string -> Resolved, hash: string -> string, n: nat)
    requires n < |rows|
    ensures var plan := PlanOf(document, now, was, rows, place, resolve, hash);
            var first := FirstClass(rows[n], place(n), now);
            && (Mentions(plan.present, n) <==> first == Some(OnPage))
            && (Mentions(plan.unplaced, n) <==> first == Some(NotPlaced))
            && (Mentions(plan.outside, n) <==> first == Some(OutsideUncovered))
            && (Mentions(plan.byHand, n)
                <==> first == Some(Settled(ByHand)) || LeftToHand(rows, place, now, resolve, n))
            && (Mentions(plan.refused, n) <==> TurnedDown(rows, place, now, resolve, n))
  {
    hide PlanOf, PlaceRows, SettleUnits, Mentions, RowsAreRows, AllNameTargets, NamesAreKeys, FirstClass, IsOn;
    hide LeftToHand, TurnedDown, Speaks, Refuses;
    var stage := SettledOf(rows, place, now, resolve).stage;
    assert rows[..|rows|] == rows;
    PlanPrints(document, now, was, rows, place, resolve, hash, n);
    FirstLoopPrints(rows, place, now, |rows|, n);
    UnitsMention(stage.plan, stage.rowsOf, stage.names, rows, resolve, n);
    NoneMentioned(n);
    SaidOfIt(rows, place, now, resolve, n);
  }

  /** What the units say of a row, in terms of the rows that go to them. */
  lemma SaidOfIt(rows: seq<Row>, place: nat -> Place, now: seq<string>, resolve: string -> Resolved, n: nat)
    requires n < |rows|
    ensures var stage := SettledOf(rows, place, now, resolve).stage;
            && ((exists j :: 0 <= j < |stage.names| && n in stage.rowsOf[stage.names[j]]
                             && Speaks(stage.rowsOf[stage.names[j]], rows, resolve, n))
                <==> LeftToHand(rows, place, now, resolve, n))
            && ((exists j :: 0 <= j < |stage.names| && n in stage.rowsOf[stage.names[j]]
                             && Refuses(stage.rowsOf[stage.names[j]], rows, resolve, n))
                <==> TurnedDown(rows, place, now, resolve, n))
  {
    hide PlaceRows, SettleUnits, AllNameTargets, NamesAreKeys, Speaks, Refuses, HandedBy, RefusedBy, Within, IsOn;
    var stage := SettledOf(rows, place, now, resolve).stage;
    assert rows[..|rows|] == rows;
    forall t
      ensures t in stage.rowsOf && n in stage.rowsOf[t] ==>
                && (Speaks(stage.rowsOf[t], rows, resolve, n) <==> HandedBy(rows, place, now, resolve, n, t))
                && (Refuses(stage.rowsOf[t], rows, resolve, n) <==> RefusedBy(rows, place, now, resolve, n, t))
      ensures HandedBy(rows, place, now, resolve, n, t) || RefusedBy(rows, place, now, resolve, n, t) ==>
                t in stage.rowsOf && n in stage.rowsOf[t] && exists j :: 0 <= j < |stage.names| && stage.names[j] == t
    {
      SaidByUnit(rows, place, now, resolve, n, t);
    }
  }

  lemma SaidByUnit(rows: seq<Row>, place: nat -> Place, now: seq<string>, resolve: string -> Resolved, n: nat,
                   t: string)
    requires n < |rows|
    ensures var stage := SettledOf(rows, place, now, resolve).stage;
            && (t in stage.rowsOf && n in stage.rowsOf[t] ==>
                  && (Speaks(stage.rowsOf[t], rows, resolve, n) <==> HandedBy(rows, place, now, resolve, n, t))
                  && (Refuses(stage.rowsOf[t], rows, resolve, n) <==> RefusedBy(rows, place, now, resolve, n, t)))
            && (HandedBy(rows, place, now, resolve, n, t) || RefusedBy(rows, place, now, resolve, n, t) ==>
                  t in stage.rowsOf && n in stage.rowsOf[t]
                  && exists j :: 0 <= j < |stage.names| && stage.names[j] == t)
  {
    hide PlaceRows, SettleUnits, AllNameTargets, GoesTo, SomeRow, Heaviest, Goes;
    var stage := SettledOf(rows, place, now, resolve).stage;
    assert rows[..|rows|] == rows;
    RowsOfIs(rows, place, now, |rows|, t, n);
    if t in stage.rowsOf {
      SomeRowIs(rows, place, now, t, IsOther);
      SomeRowIs(rows, place, now, t, IsDebt);
      HeaviestIsDebt(stage.rowsOf[t], rows);
    }
  }

  /** A row the generator prints. */
  ghost predicate Printed(plan: Content, n: nat) {
    Mentions(plan.present, n) || Mentions(plan.unplaced, n) || Mentions(plan.outside, n)
    || Mentions(plan.byHand, n) || Mentions(plan.refused, n)
  }

  /** Exactly which rows are printed, by what they are counted as. Never those whose text is
      gone, those outside the prose that are covered and those whose unit has changed; a row
      left to hand unless it is silent, as with a `by` of white space; a mapped one when a unit
      also leaves it to hand or refuses what it names; and every other row. */
  lemma RowsArePrinted(document: string, now: seq<string>, was: set<string>, rows: seq<Row>, place: nat -> Place,
                       resolve: string -> Resolved, hash: string -> string, n: nat)
    requires n < |rows|
    ensures var s, plan := SettledOf(rows, place, now, resolve), PlanOf(document, now, was, rows, place, resolve, hash);
            var kind, goes := FinalClass(s, rows[n], place(n), now, n), GoesTo(rows[n], place(n), now) != [];
            && IsRowCount(kind)
            && (Printed(plan, n) <==>
                  match kind
                  case OnPage => true
                  case NotPlaced => true
                  case OutsideUncovered => true
                  case Settled(Refused) => true
                  case Settled(ByHand) => !(goes && Silent(rows, place, now, resolve, n))
                  case Settled(Mapped) =>
                    LeftToHand(rows, place, now, resolve, n) || TurnedDown(rows, place, now, resolve, n)
                  case _ => false)
  {
    hide PlanOf, SettledOf, GoesTo, Mentions, FirstClass, Silent, LeftToHand, TurnedDown;
    var s := SettledOf(rows, place, now, resolve);
    RowsAreListed(document, now, was, rows, place, resolve, hash, n);
    HasOutcome(rows, place, now, resolve, n);
    FinalIsRowCount(s, rows[n], place(n), now, n);
    MustGoGoesNowhere(rows[n], place(n), now);
    FirstSettles(rows[n], place(n), now);
    if GoesTo(rows[n], place(n), now) != [] {
      SettledIsPrinted(rows, place, now, resolve, n);
    } else {
      NoneSaid(rows, place, now, resolve, n);
    }
  }

  lemma NoneSaid(rows: seq<Row>, place: nat -> Place, now: seq<string>, resolve: string -> Resolved, n: nat)
    requires n < |rows| && GoesTo(rows[n], place(n), now) == []
    ensures !LeftToHand(rows, place, now, resolve, n) && !TurnedDown(rows, place, now, resolve, n)
  {
    hide GoesTo, Goes;
  }

  lemma FirstSettles(row: Row, p: Place, now: seq<string>)
    ensures FirstClass(row, p, now) != Some(Settled(Refused)) && FirstClass(row, p, now) != Some(Settled(Mapped))
  {
    hide GoesTo;
  }

  /** Of a row that goes to units of the page: what is said of it. */
  lemma SettledIsPrinted(rows: seq<Row>, place: nat -> Place, now: seq<string>, resolve: string -> Resolved, n: nat)
    requires n < |rows| && GoesTo(rows[n], place(n), now) != []
    ensures var s := SettledOf(rows, place, now, resolve);
            && n in s.settled.outcome
            && (s.settled.outcome[n] == Refused ==> TurnedDown(rows, place, now, resolve, n))
            && (s.settled.outcome[n] == ByHand ==>
                  (LeftToHand(rows, place, now, resolve, n) <==> !Silent(rows, place, now, resolve, n))
                  && (TurnedDown(rows, place, now, resolve, n) ==> LeftToHand(rows, place, now, resolve, n)))
  {
    hide PlaceRows, SettleUnits, GoesTo, AllNameTargets, NamesAreKeys, SilentIn, Speaks, Refuses, ResultOn;
    hide LeastOn, FirstClass;
    hide Silent, LeftToHand, TurnedDown, Within;
    var s := SettledOf(rows, place, now, resolve);
    var stage := s.stage;
    assert rows[..|rows|] == rows;
    HasOutcome(rows, place, now, resolve, n);
    MustGoGoesNowhere(rows[n], place(n), now);
    OutcomeIs(stage.plan, stage.rowsOf, stage.names, rows, resolve, n);
    LeastOnIs(stage.rowsOf, stage.names, rows, resolve, n, 0);
    SaidOfIt(rows, place, now, resolve, n);
    var j :| 0 <= j < |stage.names| && n in stage.rowsOf[stage.names[j]]
             && ResultOn(stage.rowsOf[stage.names[j]], rows, resolve, n) == s.settled.outcome[n];
    if s.settled.outcome[n] == Refused {
      RefusedRefuses(stage.rowsOf[stage.names[j]], rows, resolve, n);
    }
    if s.settled.outcome[n] == ByHand {
      RowsOfIs(rows, place, now, |rows|, "", n);
      forall i: nat | i < |stage.names| && n in stage.rowsOf[stage.names[i]]
        ensures ResultOn(stage.rowsOf[stage.names[i]], rows, resolve, n) == ByHand
      {
        LeastOnIs(stage.rowsOf, stage.names, rows, resolve, n, i);
      }
      SilentIffNoneSpeaks(s, rows, resolve, n, j);
      SilentIs(rows, place, now, resolve, n);
      forall i: nat | i < |stage.names| && n in stage.rowsOf[stage.names[i]]
                       && Refuses(stage.rowsOf[stage.names[i]], rows, resolve, n)
        ensures Speaks(stage.rowsOf[stage.names[i]], rows, resolve, n)
      {
        RefusesSpeaks(stage.rowsOf[stage.names[i]], rows, resolve, n);
      }
    }
  }

  lemma SilentIs(rows: seq<Row>, place: nat -> Place, now: seq<string>, resolve: string -> Resolved, n: nat)
    requires n < |rows|
    ensures SilentIn(SettledOf(rows, place, now, resolve), rows, resolve, n) <==> Silent(rows, place, now, resolve, n)
  {
    hide PlaceRows, SettleUnits, AllNameTargets, GoesTo, SomeRow, Goes, NamesAreKeys;
    var stage := SettledOf(rows, place, now, resolve).stage;
    assert rows[..|rows|] == rows;
    forall t
      ensures t in stage.rowsOf && n in stage.rowsOf[t] <==> t in GoesTo(rows[n], place(n), now)
      ensures t in stage.rowsOf ==> (SomeRow(stage.rowsOf[t], rows, IsOther) <==> Goes(rows, place, now, t, IsOther))
    {
      RowsOfIs(rows, place, now, |rows|, t, n);
      if t in stage.rowsOf {
        SomeRowIs(rows, place, now, t, IsOther);
      }
    }
  }

  /** A unit that leaves a row to hand and refuses something has also left something to hand. */
  lemma RefusesSpeaks(numbers: seq<nat>, rows: seq<Row>, resolve: string -> Resolved, n: nat)
    requires Within(numbers, rows) && n < |rows| && ResultOn(numbers, rows, resolve, n) == ByHand
    requires Refuses(numbers, rows, resolve, n)
    ensures Speaks(numbers, rows, resolve, n)
  {
    hide SomeRow, Heaviest;
  }

  lemma RefusedRefuses(numbers: seq<nat>, rows: seq<Row>, resolve: string -> Resolved, n: nat)
    requires Within(numbers, rows) && n < |rows| && ResultOn(numbers, rows, resolve, n) == Refused
    ensures Refuses(numbers, rows, resolve, n)
  {
    hide SomeRow, Heaviest;
  }

  /** A unit that leaves the row to hand speaks of it, or has no other row and finds nothing. */
  lemma SpeaksUnlessEmpty(numbers: seq<nat>, rows: seq<Row>, resolve: string -> Resolved, n: nat)
    requires Within(numbers, rows) && n < |rows| && ResultOn(numbers, rows, resolve, n) == ByHand
    ensures Speaks(numbers, rows, resolve, n)
            <==> SomeRow(numbers, rows, IsOther) || resolve(rows[n].cites) != Resolved([], [], [])
  {
    hide SomeRow, Heaviest;
  }

  lemma SilentIffNoneSpeaks(s: Sorted, rows: seq<Row>, resolve: string -> Resolved, n: nat, j: nat)
    requires RowsAreRows(s.stage.rowsOf, s.stage.names, rows) && n < |rows| && NamesAreKeys(s.stage)
    requires j < |s.stage.names| && n in s.stage.rowsOf[s.stage.names[j]]
    requires forall i: nat :: i < |s.stage.names| && n in s.stage.rowsOf[s.stage.names[i]] ==>
               ResultOn(s.stage.rowsOf[s.stage.names[i]], rows, resolve, n) == ByHand
    ensures (exists i :: 0 <= i < |s.stage.names| && n in s.stage.rowsOf[s.stage.names[i]]
                         && Speaks(s.stage.rowsOf[s.stage.names[i]], rows, resolve, n))
            <==> !SilentIn(s, rows, resolve, n)
  {
    hide ResultOn, Speaks, SomeRow, Within;
    var stage := s.stage;
    SpeaksUnlessEmpty(stage.rowsOf[stage.names[j]], rows, resolve, n);
    forall i: nat | i < |stage.names| && n in stage.rowsOf[stage.names[i]]
      ensures Speaks(stage.rowsOf[stage.names[i]], rows, resolve, n)
              <==> SomeRow(stage.rowsOf[stage.names[i]], rows, IsOther)
                   || resolve(rows[n].cites) != Resolved([], [], [])
    {
      SpeaksUnlessEmpty(stage.rowsOf[stage.names[i]], rows, resolve, n);
    }
    if !SilentIn(s, rows, resolve, n) && resolve(rows[n].cites) == Resolved([], [], []) {
      var t :| t in stage.rowsOf && n in stage.rowsOf[t] && SomeRow(stage.rowsOf[t], rows, IsOther);
      var i := NameOf(stage, t);
      assert Speaks(stage.rowsOf[stage.names[i]], rows, resolve, n);
    }
  }

  /** For example the one row of a unit whose `by` is a blank: it is counted by hand, and printed
      nowhere. */
  lemma BlankCiteIsDropped(text: string, resolve: string -> Resolved, hash: string -> string)
    requires resolve(" ") == Resolved([], [], [])
    ensures var rows, place := [Row(None, true, " ")], (n: nat) => Place(false, [text], [text], false, true);
            var plan := PlanOf("page", [text], {text}, rows, place, resolve, hash);
            plan.counts[Settled(ByHand)] == 1 && !Printed(plan, 0)
  {
    var rows, place := [Row(None, true, " ")], (n: nat) => Place(false, [text], [text], false, true);
    var now := [text];
    hide PlanOf, SettledOf, Mentions, FinalClass, Silent;
    var s := SettledOf(rows, place, now, resolve);
    assert GoesTo(rows[0], place(0), now) != [] by { assert text in GoesTo(rows[0], place(0), now); }
    NothingElse(rows, place, now, resolve);
    RowsArePrinted("page", now, {text}, rows, place, resolve, hash, 0);
    CountIsExact("page", now, {text}, rows, place, resolve, hash, Settled(ByHand));
    assert FinalClass(s, rows[0], place(0), now, 0) == Settled(ByHand);
    assert FinalCount(s, rows, place, now, Settled(ByHand), 0) == 0;
  }

  lemma NothingElse(rows: seq<Row>, place: nat -> Place, now: seq<string>, resolve: string -> Resolved)
    requires |rows| == 1 && IsCovered(rows[0]) && resolve(rows[0].cites) == Resolved([], [], [])
    requires GoesTo(rows[0], place(0), now) != []
    ensures var s := SettledOf(rows, place, now, resolve);
            Silent(rows, place, now, resolve, 0) && FinalClass(s, rows[0], place(0), now, 0) == Settled(ByHand)
  {
    hide SettledOf, GoesTo, FirstClass, Heaviest;
    var s := SettledOf(rows, place, now, resolve);
    OutcomeIsLeast(rows, place, now, resolve, 0);
    MustGoGoesNowhere(rows[0], place(0), now);
    var t :| t in s.stage.rowsOf && s.settled.outcome[0] == ResultOn(s.stage.rowsOf[t], rows, resolve, 0);
    OnlyCovered(s.stage.rowsOf[t], rows);
    assert ResultOn(s.stage.rowsOf[t], rows, resolve, 0) == OfCited(resolve(rows[0].cites));
    assert FirstClass(rows[0], place(0), now).None?;
    assert FinalClass(s, rows[0], place(0), now, 0) == Settled(s.settled.outcome[0]);
  }

  lemma OnlyCovered(numbers: seq<nat>, rows: seq<Row>)
    requires |rows| == 1 && IsCovered(rows[0]) && Within(numbers, rows)
    ensures !SomeRow(numbers, rows, IsOther) && Heaviest(numbers, rows).None?
  {
    forall k | 0 <= k < |numbers| ensures rows[numbers[k]] == rows[0] {
    }
  }

  /** And a covered row whose unit has changed, whatever its `by`: counted, and printed nowhere. */
  lemma ChangedUnitIsDropped(text: string, other: string, cites: string, resolve: string -> Resolved,
                             hash: string -> string)
    requires text != other
    ensures var rows, place := [Row(None, true, cites)], (n: nat) => Place(false, [text], [text], false, true);
            var plan := PlanOf("page", [other], {text}, rows, place, resolve, hash);
            plan.counts[UnitChanged] == 1 && !Printed(plan, 0)
  {
    var rows, place := [Row(None, true, cites)], (n: nat) => Place(false, [text], [text], false, true);
    var now := [other];
    hide PlanOf, SettledOf, Mentions;
    var s := SettledOf(rows, place, now, resolve);
    assert GoesTo(rows[0], place(0), now) == [] by {
      Ordering.Inhabited(GoesTo(rows[0], place(0), now));
    }
    assert FirstClass(rows[0], place(0), now) == Some(UnitChanged);
    RowsArePrinted("page", now, {text}, rows, place, resolve, hash, 0);
    CountIsExact("page", now, {text}, rows, place, resolve, hash, UnitChanged);
    assert FinalCount(s, rows, place, now, UnitChanged, 0) == 0;
  }
}
