/** The registry and the ledger lines a plan writes, against the checks that will read them. */
module AuditEntries {
  import opened Wrappers
  import opened Registry
  import opened RegistryFacts
  import opened Gate
  import opened AuditPlan
  import opened AuditFacts
  import L = Ledger
  import LedgerText
  import opened Sequences

  function Fates(s: Sorted, was: set<string>, text: string): Fate {
    FateOf(text, s.settled.entries, s.stage.rowsOf, s.stage.held, was)
  }

  function WithCount(e: Raw, times: nat): Raw
    requires e.Entry?
  {
    if times > 1 then e.(count := Times(times)) else e
  }

  predicate Good(s: Sorted) {
    AllNameTargets(s.settled.entries)
  }

  /** The entries of these texts, in order, each with the page's own number of occurrences. */
  function EntriesFor(s: Sorted, was: set<string>, now: seq<string>, texts: seq<string>): seq<Raw>
    requires Good(s)
  {
    if texts == [] then []
    else
      var text := texts[|texts| - 1];
      EntriesFor(s, was, now, texts[..|texts| - 1])
      + match Fates(s, was, text)
        case HasEntry(e) => [WithCount(e, multiset(now)[text])]
        case _ => []
  }

  function LedgerFor(s: Sorted, document: string, hash: string -> string, was: set<string>,
                     texts: seq<string>): seq<L.Line>
    requires Good(s)
  {
    if texts == [] then []
    else
      var text := texts[|texts| - 1];
      LedgerFor(s, document, hash, was, texts[..|texts| - 1])
      + match Fates(s, was, text)
        case HasEntry(e) => LineOfEntry(e, document, hash, text)
        case _ => []
  }

  function LineOfEntry(e: Raw, document: string, hash: string -> string, text: string): seq<L.Line>
    requires NamesTargets(e)
  {
    var head := e.targets.value[0];
    if L.IsLedgerKind(head) then [L.Line(head, document, hash(text))] else []
  }

  // --- The loops before it leave these lists alone ---

  lemma {:induction false} PlacingWritesNothing(rows: seq<Row>, place: nat -> Place, now: seq<string>, n: nat)
    requires n <= |rows|
    ensures var c := PlaceRows(rows[..n], place, now).plan; c.entries == [] && c.ledger == []
  {
    hide PlaceRow;
    if n > 0 {
      PlacingWritesNothing(rows, place, now, n - 1);
      assert rows[..n][..n - 1] == rows[..n - 1];
      PlacedPlan(PlaceRows(rows[..n - 1], place, now), n - 1, rows[n - 1], place(n - 1), now);
      hide GoesTo;
    }
  }

  lemma {:induction false} SettlingWritesNothing(start: Content, rowsOf: map<string, seq<nat>>, names: seq<string>,
                                                 rows: seq<Row>, resolve: string -> Resolved)
    requires RowsAreRows(rowsOf, names, rows)
    ensures var c := SettleUnits(start, rowsOf, names, rows, resolve).plan;
            c.entries == start.entries && c.ledger == start.ledger
  {
    hide EntryOf, SettleUnit;
    if names != [] {
      SettlingWritesNothing(start, rowsOf, names[..|names| - 1], rows, resolve);
    }
  }

  lemma {:induction false} UnitsWrite(c: Content, document: string, now: seq<string>, texts: seq<string>, s: Sorted,
                                      was: set<string>, hash: string -> string)
    requires Good(s)
    ensures var d := AddUnits(c, document, now, texts, s.settled.entries, s.stage.rowsOf, s.stage.held, was, hash);
            && d.entries == c.entries + EntriesFor(s, was, now, texts)
            && d.ledger == c.ledger + LedgerFor(s, document, hash, was, texts)
  {
    hide FateOf, L.IsLedgerKind, IsOwed;
    if texts != [] {
      UnitsWrite(c, document, now, texts[..|texts| - 1], s, was, hash);
    }
  }

  /** What the plan writes, as a list over the page's texts. */
  lemma PlanWrites(document: string, now: seq<string>, was: set<string>, rows: seq<Row>, place: nat -> Place,
                   resolve: string -> Resolved, hash: string -> string)
    ensures var s, plan := SettledOf(rows, place, now, resolve), PlanOf(document, now, was, rows, place, resolve, hash);
            && Good(s)
            && plan.entries == EntriesFor(s, was, now, Distinct(now))
            && plan.ledger == LedgerFor(s, document, hash, was, Distinct(now))
  {
    hide PlaceRows, SettleUnits, AddUnits, OutcomeCounts, Distinct, EntriesFor, LedgerFor, RowsAreRows, AllNameTargets;
    var s := SettledOf(rows, place, now, resolve);
    assert rows[..|rows|] == rows;
    PlacingWritesNothing(rows, place, now, |rows|);
    SettlingWritesNothing(s.stage.plan, s.stage.rowsOf, s.stage.names, rows, resolve);
    var counted := s.settled.plan.(counts := s.settled.plan.counts + OutcomeCounts(s.settled.outcome, |rows|));
    UnitsWrite(counted, document, now, Distinct(now), s, was, hash);
  }

  // --- Which units get an entry ---

  lemma {:induction false} EntriesAre(start: Content, rowsOf: map<string, seq<nat>>, names: seq<string>, rows: seq<Row>,
                                      resolve: string -> Resolved, text: string)
    requires RowsAreRows(rowsOf, names, rows)
    ensures var entries := SettleUnits(start, rowsOf, names, rows, resolve).entries;
            && (text in entries <==> text in names && EntryOf(text, rowsOf[text], rows, resolve).Some?)
            && (text in entries ==> entries[text] == EntryOf(text, rowsOf[text], rows, resolve).value)
  {
    hide EntryOf, SettleUnit, PrintUnit;
    if names != [] {
      var n := |names| - 1;
      EntriesAre(start, rowsOf, names[..n], rows, resolve, text);
      assert names == names[..n] + [names[n]];
    }
  }

  /** The row's `by` resolves to a target. */
  function Resolves(resolve: string -> Resolved): Row -> bool {
    (row: Row) => resolve(row.cites).targets != []
  }

  /** The rows that go to the unit give it an entry: all can be mapped, and one is a debt or
      resolves to a target. */
  ghost predicate Entitled(rows: seq<Row>, place: nat -> Place, now: seq<string>, resolve: string -> Resolved,
                           text: string) {
    && !Goes(rows, place, now, text, IsOther)
    && (Goes(rows, place, now, text, IsDebt) || Goes(rows, place, now, text, Resolves(resolve)))
  }

  ghost predicate IsHeld(rows: seq<Row>, place: nat -> Place, text: string) {
    exists m: nat :: m < |rows| && text in HeldBy(rows[m], place(m))
  }

  lemma {:induction false} CitedExact(numbers: seq<nat>, rows: seq<Row>, resolve: string -> Resolved)
    requires Within(numbers, rows)
    ensures Cited(numbers, rows, resolve) != [] <==> SomeRow(numbers, rows, Resolves(resolve))
  {
    hide SomeRow;
    SomeRowSplits(numbers, rows, Resolves(resolve));
    if numbers != [] {
      CitedExact(numbers[..|numbers| - 1], rows, resolve);
    }
  }

  lemma SomeRowSplits(numbers: seq<nat>, rows: seq<Row>, test: Row -> bool)
    requires Within(numbers, rows)
    ensures SomeRow(numbers, rows, test)
            <==> numbers != [] && (SomeRow(numbers[..|numbers| - 1], rows, test) || test(rows[numbers[|numbers| - 1]]))
  {
    if numbers != [] {
      var n := |numbers| - 1;
      assert forall k :: 0 <= k < n ==> numbers[..n][k] == numbers[k];
    }
  }

  lemma EntryExact(text: string, numbers: seq<nat>, rows: seq<Row>, resolve: string -> Resolved)
    requires Within(numbers, rows)
    ensures EntryOf(text, numbers, rows, resolve).Some?
            <==> !SomeRow(numbers, rows, IsOther)
                 && (SomeRow(numbers, rows, IsDebt) || SomeRow(numbers, rows, Resolves(resolve)))
  {
    hide SomeRow, Heaviest, Cited;
    HeaviestIsDebt(numbers, rows);
    CitedExact(numbers, rows, resolve);
    var cited := Cited(numbers, rows, resolve);
    assert cited != [] ==> cited[0] in Distinct(cited);
  }

  /** By its rows, the unit is due an entry: those that go to it entitle it to one, or none goes
      to it, none holds it back, and it was there at the audit. */
  ghost predicate GetsEntry(rows: seq<Row>, place: nat -> Place, now: seq<string>, resolve: string -> Resolved,
                            was: set<string>, text: string) {
    if Goes(rows, place, now, text, Any) then Entitled(rows, place, now, resolve, text)
    else !IsHeld(rows, place, text) && text in was
  }

  /** A unit of the page gets an entry exactly when its rows make one due. */
  lemma WhoGetsAnEntry(rows: seq<Row>, place: nat -> Place, now: seq<string>, resolve: string -> Resolved,
                       was: set<string>, text: string)
    ensures Fates(SettledOf(rows, place, now, resolve), was, text).HasEntry?
            <==> GetsEntry(rows, place, now, resolve, was, text)
  {
    hide PlaceRows, SettleUnits, GoesTo, HeldBy, NamesAreKeys, AllNameTargets, EntryOf, Within, SomeRow;
    var stage := SettledOf(rows, place, now, resolve).stage;
    assert rows[..|rows|] == rows;
    EntriesAre(stage.plan, stage.rowsOf, stage.names, rows, resolve, text);
    HeldIs(rows, place, now, |rows|, text);
    KeysAre(rows, place, now, resolve, text);
    assert Goes(rows, place, now, text, Any) <==> exists m: nat :: m < |rows| && text in GoesTo(rows[m], place(m), now);
    if text in stage.rowsOf {
      EntryExact(text, stage.rowsOf[text], rows, resolve);
      SomeRowIs(rows, place, now, text, IsOther);
      SomeRowIs(rows, place, now, text, IsDebt);
      SomeRowIs(rows, place, now, text, Resolves(resolve));
    }
  }

  /** A unit has rows exactly when a row goes to it. */
  lemma KeysAre(rows: seq<Row>, place: nat -> Place, now: seq<string>, resolve: string -> Resolved, text: string)
    ensures var stage := SettledOf(rows, place, now, resolve).stage;
            && (text in stage.rowsOf <==> text in stage.names)
            && (text in stage.rowsOf <==> exists m: nat :: m < |rows| && text in GoesTo(rows[m], place(m), now))
  {
    hide PlaceRows, SettleUnits, GoesTo, AllNameTargets;
    var stage := SettledOf(rows, place, now, resolve).stage;
    assert rows[..|rows|] == rows;
    RowsOfIs(rows, place, now, |rows|, text, 0);
    if text in stage.rowsOf {
      NoUnitIsEmpty(rows, place, now, |rows|, text);
      var n := stage.rowsOf[text][0];
      RowsOfIs(rows, place, now, |rows|, text, n);
    }
    if exists m: nat :: m < |rows| && text in GoesTo(rows[m], place(m), now) {
      var m: nat :| m < |rows| && text in GoesTo(rows[m], place(m), now);
      RowsOfIs(rows, place, now, |rows|, text, m);
    }
  }

  predicate NoneEmpty(s: Stage) {
    forall t :: t in s.rowsOf ==> s.rowsOf[t] != []
  }

  lemma {:induction false} NoUnitIsEmpty(rows: seq<Row>, place: nat -> Place, now: seq<string>, n: nat, text: string)
    requires n <= |rows|
    ensures NoneEmpty(PlaceRows(rows[..n], place, now))
  {
    hide AddRows, GoesTo, PlaceRow;
    if n > 0 {
      NoUnitIsEmpty(rows, place, now, n - 1, text);
      assert rows[..n][..n - 1] == rows[..n - 1];
      var s := PlaceRows(rows[..n - 1], place, now);
      var t := PlaceRow(s, n - 1, rows[n - 1], place(n - 1), now);
      var texts := GoesTo(rows[n - 1], place(n - 1), now);
      AddRowsKeeps(s, t, texts, n - 1, rows[n - 1], place(n - 1), now);
      AddedNotEmpty(Stage(t.plan, s.rowsOf, s.names, t.held), texts, n - 1);
    }
  }

  lemma {:induction false} AddedNotEmpty(s: Stage, texts: seq<string>, n: nat)
    requires NoneEmpty(s)
    ensures NoneEmpty(AddRows(s, texts, n))
  {
    if texts != [] {
      AddedNotEmpty(s, texts[..|texts| - 1], n);
    }
  }

  /** A unit some row holds back (one whose text must go maps to it, or one whose line holds
      several units stands on it) still gets an entry, exactly when other rows go to it and
      entitle it to one. */
  lemma HeldUnitGetsAnEntry(rows: seq<Row>, place: nat -> Place, now: seq<string>, resolve: string -> Resolved,
                            was: set<string>, text: string)
    requires IsHeld(rows, place, text)
    ensures Fates(SettledOf(rows, place, now, resolve), was, text).HasEntry?
            <==> Entitled(rows, place, now, resolve, text)
  {
    hide SettledOf, Fates, GoesTo, HeldBy;
    WhoGetsAnEntry(rows, place, now, resolve, was, text);
  }

  /** For example an X row and a T row that map to the same unit. */
  lemma XAndTMapped(text: string, place: nat -> Place, was: set<string>, resolve: string -> Resolved)
    requires !place(0).inside && place(0).mapped == [text] && !place(1).inside && place(1).mapped == [text]
    ensures var rows := [Row(Some(X), false, ""), Row(Some(T), false, "")];
            && text in HeldBy(rows[0], place(0))
            && Fates(SettledOf(rows, place, [text], resolve), was, text).HasEntry?
  {
    var rows := [Row(Some(X), false, ""), Row(Some(T), false, "")];
    hide Fates, SettledOf;
    assert text in HeldBy(rows[0], place(0));
    assert IsHeld(rows, place, text);
    assert text in GoesTo(rows[1], place(1), [text]) && IsDebt(rows[1]);
    assert Goes(rows, place, [text], text, IsDebt);
    HeldUnitGetsAnEntry(rows, place, [text], resolve, was, text);
  }

  lemma XAndTOnOneUnit(text: string, resolve: string -> Resolved)
    ensures var rows := [Row(Some(X), false, ""), Row(Some(T), false, "")];
            var place := (n: nat) => Place(false, [text], [text], false, true);
            && text in HeldBy(rows[0], place(0))
            && Fates(SettledOf(rows, place, [text], resolve), {text}, text).HasEntry?
  {
    hide Fates, SettledOf;
    XAndTMapped(text, (n: nat) => Place(false, [text], [text], false, true), {text}, resolve);
  }

  /** And a row whose line holds several units, one of which a T row picks. */
  lemma SeveralAndTOnOneUnit(text: string, other: string, resolve: string -> Resolved)
    requires text != other
    ensures var rows := [Row(None, true, "x"), Row(Some(T), false, "")];
            var place := (n: nat) => Place(false, if n == 0 then [] else [text], [text, other], false, true);
            && text in HeldBy(rows[0], place(0))
            && Fates(SettledOf(rows, place, [text, other], resolve), {text, other}, text).HasEntry?
  {
    var rows := [Row(None, true, "x"), Row(Some(T), false, "")];
    var place := (n: nat) => Place(false, if n == 0 then [] else [text], [text, other], false, true);
    var now := [text, other];
    hide Fates, SettledOf;
    assert text in HeldBy(rows[0], place(0));
    assert IsHeld(rows, place, text);
    assert text in GoesTo(rows[1], place(1), now) && IsDebt(rows[1]);
    assert Goes(rows, place, now, text, IsDebt);
    HeldUnitGetsAnEntry(rows, place, now, resolve, {text, other}, text);
  }

  // --- The registry ---

  lemma {:induction false} DistinctOnce<T(!new)>(s: seq<T>)
    ensures forall j, k :: 0 <= j < k < |Distinct(s)| ==> Distinct(s)[j] != Distinct(s)[k]
  {
    if s != [] {
      DistinctOnce(s[..|s| - 1]);
    }
  }

  /** Every entry is one of these texts', and has its text. */
  lemma {:induction false} EntryIsFor(s: Sorted, was: set<string>, now: seq<string>, texts: seq<string>, e: Raw)
    requires Good(s) && Texted(s) && e in EntriesFor(s, was, now, texts)
    ensures e.Entry? && e.text in texts && Fates(s, was, e.text).HasEntry?
            && e == WithCount(Fates(s, was, e.text).entry, multiset(now)[e.text])
  {
    hide FateOf, AllNameTargets;
    var text := texts[|texts| - 1];
    assert texts == texts[..|texts| - 1] + [text];
    if Fates(s, was, text).HasEntry? {
      FateHasText(s, was, text);
    }
    if e in EntriesFor(s, was, now, texts[..|texts| - 1]) {
      EntryIsFor(s, was, now, texts[..|texts| - 1], e);
    }
  }

  /** Each entry is filed under its own text, without a count. */
  predicate Texted(s: Sorted) {
    forall t :: t in s.settled.entries ==>
      s.settled.entries[t].Entry? && s.settled.entries[t].targets.Some?
      && s.settled.entries[t] == Simple(t, s.settled.entries[t].targets.value)
  }

  lemma FateHasText(s: Sorted, was: set<string>, text: string)
    requires Texted(s) && Fates(s, was, text).HasEntry?
    ensures var e := Fates(s, was, text).entry; e.Entry? && e.targets.Some? && e == Simple(text, e.targets.value)
  {
  }

  lemma {:induction false} EntryIsThere(s: Sorted, was: set<string>, now: seq<string>, texts: seq<string>, text: string)
    requires Good(s) && Texted(s) && text in texts && Fates(s, was, text).HasEntry?
    ensures WithCount(Fates(s, was, text).entry, multiset(now)[text]) in EntriesFor(s, was, now, texts)
    ensures Fates(s, was, text).entry.Entry?
  {
    hide FateOf, AllNameTargets;
    FateHasText(s, was, text);
    var n := |texts| - 1;
    assert texts == texts[..n] + [texts[n]];
    if text != texts[n] {
      EntryIsThere(s, was, now, texts[..n], text);
    }
  }

  lemma {:induction false} NoneListedTwice(s: Sorted, was: set<string>, now: seq<string>, texts: seq<string>)
    requires Good(s) && Texted(s) && NoRepeats(texts)
    ensures NoneTwice(EntriesFor(s, was, now, texts))
  {
    hide FateOf, AllNameTargets, Texted, WithCount;
    if texts != [] {
      var n := |texts| - 1;
      var before := EntriesFor(s, was, now, texts[..n]);
      NoneListedTwice(s, was, now, texts[..n]);
      forall k | 0 <= k < |before| ensures before[k].Entry? && before[k].text in texts[..n] {
        assert before[k] in before;
        EntryIsFor(s, was, now, texts[..n], before[k]);
      }
      if Fates(s, was, texts[n]).HasEntry? {
        EntryText(s, was, texts[n], multiset(now)[texts[n]]);
      }
    }
  }

  lemma EntryText(s: Sorted, was: set<string>, text: string, times: nat)
    requires Good(s) && Texted(s) && Fates(s, was, text).HasEntry?
    ensures var e := WithCount(Fates(s, was, text).entry, times); e.Entry? && e.text == text
  {
    FateHasText(s, was, text);
  }

  /** The page's texts are on it a bounded number of times wherever they get an entry. */
  predicate Countable(s: Sorted, was: set<string>, now: seq<string>) {
    forall t :: t in now && Fates(s, was, t).HasEntry? ==> multiset(now)[t] <= COUNT_MAX
  }

  /** The same by the rows. */
  lemma DueIsCountable(rows: seq<Row>, place: nat -> Place, now: seq<string>, resolve: string -> Resolved,
                       was: set<string>)
    ensures var s := SettledOf(rows, place, now, resolve);
            && (forall t :: Fates(s, was, t).HasEntry? <==> GetsEntry(rows, place, now, resolve, was, t))
            && (Countable(s, was, now)
                <==> forall t :: t in now && GetsEntry(rows, place, now, resolve, was, t)
                                 ==> multiset(now)[t] <= COUNT_MAX)
  {
    hide SettledOf, Fates, GetsEntry;
    var s := SettledOf(rows, place, now, resolve);
    forall t
      ensures Fates(s, was, t).HasEntry? <==> GetsEntry(rows, place, now, resolve, was, t)
    {
      WhoGetsAnEntry(rows, place, now, resolve, was, t);
    }
  }

  /** The entries carry the page's own multiplicities. */
  lemma {:induction false} BagOfEntries(s: Sorted, was: set<string>, now: seq<string>, texts: seq<string>, text: string)
    requires Good(s) && Texted(s) && NoRepeats(texts) && (forall t :: t in texts ==> t in now) && Countable(s, was, now)
    ensures forall e :: e in EntriesFor(s, was, now, texts) ==> e.Entry? && GoodCount(e.count)
    ensures Bag(EntriesFor(s, was, now, texts))[text]
         == if text in texts && Fates(s, was, text).HasEntry? then multiset(now)[text] else 0
  {
    hide Fates, AllNameTargets, Texted, Bag, Countable, WithCount, GoodCount, Good;
    if texts == [] {
      NothingInBag();
    } else {
      var n := |texts| - 1;
      var x := texts[n];
      assert texts == texts[..n] + [x];
      BagOfEntries(s, was, now, texts[..n], text);
      var before := EntriesFor(s, was, now, texts[..n]);
      if Fates(s, was, x).HasEntry? {
        FateHasText(s, was, x);
        CountIsTimes(s, was, now, x);
        BagAppend(before, WithCount(Fates(s, was, x).entry, multiset(now)[x]));
      } else {
        assert before + [] == before;
      }
    }
  }

  lemma NothingInBag()
    ensures Bag([]) == multiset{}
  {
  }

  lemma BagAppend(raw: seq<Raw>, e: Raw)
    requires (forall x :: x in raw ==> x.Entry? && GoodCount(x.count)) && e.Entry? && GoodCount(e.count)
    ensures forall x :: x in raw + [e] ==> x.Entry? && GoodCount(x.count)
    ensures Bag(raw + [e]) == Bag(raw) + Copies(e.text, Value(e.count))
  {
    hide GoodCount;
    assert (raw + [e])[..|raw|] == raw;
  }

  lemma CountIsTimes(s: Sorted, was: set<string>, now: seq<string>, text: string)
    requires Good(s) && Texted(s) && Fates(s, was, text).HasEntry? && text in now && Countable(s, was, now)
    ensures var e := WithCount(Fates(s, was, text).entry, multiset(now)[text]);
            e.Entry? && e.text == text && GoodCount(e.count) && Value(e.count) == multiset(now)[text]
  {
    FateHasText(s, was, text);
    assert text in multiset(now);
  }

  // What the entries look like.

  lemma SettledTexted(rows: seq<Row>, place: nat -> Place, now: seq<string>, resolve: string -> Resolved)
    ensures Texted(SettledOf(rows, place, now, resolve))
  {
    hide PlaceRows, SettleUnits, EntryOf;
    var s := SettledOf(rows, place, now, resolve);
    forall t | t in s.settled.entries
      ensures s.settled.entries[t].Entry? && s.settled.entries[t].targets.Some?
              && s.settled.entries[t] == Simple(t, s.settled.entries[t].targets.value)
    {
      EntriesAre(s.stage.plan, s.stage.rowsOf, s.stage.names, rows, resolve, t);
      EntryNamesTargets(t, s.stage.rowsOf[t], rows, resolve);
    }
  }

  /** The resolver never answers with an exempt or untested target. */
  ghost predicate Verifies(resolve: string -> Resolved) {
    forall cites, t :: t in resolve(cites).targets ==> !StandsAlone(t)
  }

  lemma {:induction false} CitedVerify(numbers: seq<nat>, rows: seq<Row>, resolve: string -> Resolved)
    requires Within(numbers, rows) && Verifies(resolve)
    ensures forall t :: t in Cited(numbers, rows, resolve) ==> !StandsAlone(t)
  {
    hide StandsAlone;
    if numbers != [] {
      CitedVerify(numbers[..|numbers| - 1], rows, resolve);
    }
  }

  lemma EntryShape(text: string, numbers: seq<nat>, rows: seq<Row>, resolve: string -> Resolved)
    requires Within(numbers, rows) && Verifies(resolve) && EntryOf(text, numbers, rows, resolve).Some?
    ensures var e := EntryOf(text, numbers, rows, resolve).value; e.Entry? && ShapeOf(e).None?
  {
    hide StandsAlone, SomeRow, Heaviest, Verifies, Cited, Distinct;
    CitedVerify(numbers, rows, resolve);
    DistinctOnce(Cited(numbers, rows, resolve));
  }

  lemma FateShape(rows: seq<Row>, place: nat -> Place, now: seq<string>, resolve: string -> Resolved, was: set<string>,
                  text: string, times: nat)
    requires Verifies(resolve)
    ensures var s := SettledOf(rows, place, now, resolve);
            Good(s) && (Fates(s, was, text).HasEntry? ==>
              var e := WithCount(Fates(s, was, text).entry, times);
              e.Entry? && ShapeOf(e).None? && e.targets.Some? && !e.unknownKeys)
  {
    hide PlaceRows, SettleUnits, EntryOf, Verifies, StandsAlone;
    var s := SettledOf(rows, place, now, resolve);
    if text in s.settled.entries {
      EntriesAre(s.stage.plan, s.stage.rowsOf, s.stage.names, rows, resolve, text);
      EntryShape(text, s.stage.rowsOf[text], rows, resolve);
      EntryNamesTargets(text, s.stage.rowsOf[text], rows, resolve);
      ShapeIgnoresCount(s.settled.entries[text], times);
    } else {
      ShapeIgnoresCount(Simple(text, ["exempt:baseline"]), times);
    }
  }

  lemma ShapeIgnoresCount(e: Raw, times: nat)
    requires e.Entry?
    ensures ShapeOf(WithCount(e, times)) == ShapeOf(e)
  {
    hide StandsAlone;
  }

  /** The registry a plan writes has no problem exactly when the rows make an entry due for every
      unit of the page, and none occurs more than 999 times. */
  lemma PlanMeetsTheRegistryCheck(document: string, page: seq<Unit>, was: set<string>, rows: seq<Row>,
                                  place: nat -> Place,
                                  resolve: string -> Resolved, hash: string -> string, bad: (Raw, string) -> bool)
    requires Verifies(resolve)
    requires var plan := PlanOf(document, Texts(page), was, rows, place, resolve, hash);
             forall e, t :: e in plan.entries && e.Entry? && e.targets.Some? && t in e.targets.value ==> !bad(e, t)
    ensures var now := Texts(page);
            RegistryProblems(PlanOf(document, now, was, rows, place, resolve, hash).entries, page, bad) == []
            <==> forall t :: t in now ==>
                   GetsEntry(rows, place, now, resolve, was, t) && multiset(now)[t] <= COUNT_MAX
  {
    hide SettledOf, PlanOf, RegistryProblems, GetsEntry, Verifies, EntriesFor, Distinct, Fates, Texts, Bag;
    hide Texted, Good, NoneTwice, GoodCount, ShapeOf;
    var now := Texts(page);
    var s, plan := SettledOf(rows, place, now, resolve), PlanOf(document, now, was, rows, place, resolve, hash);
    PlanWrites(document, now, was, rows, place, resolve, hash);
    SettledTexted(rows, place, now, resolve);
    DistinctOnce(now);
    NoneListedTwice(s, was, now, Distinct(now));
    RegistryIsExact(plan.entries, page, bad);
    assert Countable(s, was, now) <==> AllAcceptable(plan.entries, bad) by {
      AcceptedIffCountable(now, was, rows, place, resolve, bad);
    }
    if Countable(s, was, now) {
      EntriesAreThePage(s, was, now);
    }
    DueIsCountable(rows, place, now, resolve, was);
  }

  lemma EntriesAreThePage(s: Sorted, was: set<string>, now: seq<string>)
    requires Good(s) && Texted(s) && Countable(s, was, now)
    ensures var entries := EntriesFor(s, was, now, Distinct(now));
            && (forall k :: 0 <= k < |entries| ==> entries[k].Entry? && GoodCount(entries[k].count))
            && (Bag(entries) == multiset(now) <==> forall t :: t in now ==> Fates(s, was, t).HasEntry?)
  {
    hide EntriesFor, Distinct, Fates, Bag, Texted, Good, GoodCount, Countable;
    DistinctOnce(now);
    var entries := EntriesFor(s, was, now, Distinct(now));
    BagOfEntries(s, was, now, Distinct(now), "");
    forall k | 0 <= k < |entries| ensures entries[k].Entry? && GoodCount(entries[k].count) {
      assert entries[k] in entries;
    }
    forall t
      ensures Bag(entries)[t] == if t in now && Fates(s, was, t).HasEntry? then multiset(now)[t] else 0
    {
      BagOfEntries(s, was, now, Distinct(now), t);
    }
    if Bag(entries) == multiset(now) {
      forall t | t in now ensures Fates(s, was, t).HasEntry? {
        assert t in multiset(now);
      }
    }
  }

  lemma AcceptedIffCountable(now: seq<string>, was: set<string>, rows: seq<Row>, place: nat -> Place,
                             resolve: string -> Resolved, bad: (Raw, string) -> bool)
    requires Verifies(resolve) && Good(SettledOf(rows, place, now, resolve))
    requires var entries := EntriesFor(SettledOf(rows, place, now, resolve), was, now, Distinct(now));
             forall e, t :: e in entries && e.Entry? && e.targets.Some? && t in e.targets.value ==> !bad(e, t)
    ensures var s := SettledOf(rows, place, now, resolve);
            Countable(s, was, now) <==> AllAcceptable(EntriesFor(s, was, now, Distinct(now)), bad)
  {
    hide SettledOf, Verifies, EntriesFor, Distinct, Fates, Texted, Good, ShapeOf;
    var s := SettledOf(rows, place, now, resolve);
    var entries := EntriesFor(s, was, now, Distinct(now));
    SettledTexted(rows, place, now, resolve);
    if Countable(s, was, now) {
      forall k | 0 <= k < |entries| ensures Acceptable(entries[k], bad) {
        var e := entries[k];
        assert e in entries;
        EntryIsFor(s, was, now, Distinct(now), e);
        FateShape(rows, place, now, resolve, was, e.text, multiset(now)[e.text]);
        CountIsTimes(s, was, now, e.text);
      }
    }
    if AllAcceptable(entries, bad) {
      forall t | t in now && Fates(s, was, t).HasEntry? ensures multiset(now)[t] <= COUNT_MAX {
        EntryIsThere(s, was, now, Distinct(now), t);
        var e := WithCount(Fates(s, was, t).entry, multiset(now)[t]);
        assert e in entries;
      }
    }
  }

  /** With no unit too often on the page, all the check can say is which units have no entry. */
  lemma OnlyUnregistered(document: string, page: seq<Unit>, was: set<string>, rows: seq<Row>, place: nat -> Place,
                         resolve: string -> Resolved, hash: string -> string, bad: (Raw, string) -> bool, p: Problem)
    requires Verifies(resolve)
    requires var plan := PlanOf(document, Texts(page), was, rows, place, resolve, hash);
             forall e, t :: e in plan.entries && e.Entry? && e.targets.Some? && t in e.targets.value ==> !bad(e, t)
    requires forall t :: t in Texts(page) && GetsEntry(rows, place, Texts(page), resolve, was, t) ==>
               multiset(Texts(page))[t] <= COUNT_MAX
    requires p in RegistryProblems(PlanOf(document, Texts(page), was, rows, place, resolve, hash).entries, page, bad)
    ensures p.Unregistered? && p.text in Texts(page)
            && !GetsEntry(rows, place, Texts(page), resolve, was, p.text)
  {
    hide GetsEntry, SettledOf, PlanOf, Verifies, EntriesFor, Distinct, Fates, Texts, Bag;
    hide Texted, Good, NoneTwice, GoodCount, AllAcceptable;
    hide ReadEntries, OfPage, OfNames, Countable, FirstLine;
    var now := Texts(page);
    var s, plan := SettledOf(rows, place, now, resolve), PlanOf(document, now, was, rows, place, resolve, hash);
    PlanWrites(document, now, was, rows, place, resolve, hash);
    SettledTexted(rows, place, now, resolve);
    DistinctOnce(now);
    NoneListedTwice(s, was, now, Distinct(now));
    DueIsCountable(rows, place, now, resolve, was);
    AcceptedIffCountable(now, was, rows, place, resolve, bad);
    EntriesAreExact(plan.entries, bad);
    var r := ReadEntries(plan.entries, bad);
    NamesOnPage(s, was, now, r);
    NoNamesMissing(page, r.names);
    var text := SaidOfText(page, r.registered, Distinct(now), p);
    EntriesAreThePage(s, was, now);
    BagIs(plan.entries, bad, text);
    BagOfEntries(s, was, now, Distinct(now), text);
    assert text in multiset(now);
  }

  lemma NamesOnPage(s: Sorted, was: set<string>, now: seq<string>, r: Reading)
    requires Good(s) && Texted(s) && Clean(r, EntriesFor(s, was, now, Distinct(now)))
    ensures forall t :: t in r.names ==> t in now
  {
    hide EntriesFor, Distinct, Fates, Texted, Good;
    var entries := EntriesFor(s, was, now, Distinct(now));
    forall k | 0 <= k < |r.names| ensures r.names[k] in now {
      assert entries[k] in entries;
      EntryIsFor(s, was, now, Distinct(now), entries[k]);
    }
  }

  lemma NoNamesMissing(page: seq<Unit>, names: seq<string>)
    requires forall t :: t in names ==> t in Texts(page)
    ensures OfNames(page, names) == []
  {
    OfNamesIsExact(page, names);
  }

  lemma {:induction false} SaidOfText(page: seq<Unit>, registered: map<string, int>, texts: seq<string>, p: Problem)
    returns (text: string)
    requires (forall t :: t in texts ==> t in Texts(page)) && p in OfPage(page, registered, texts)
    ensures text in texts && p in OfPageText(page, registered, text)
  {
    hide OfPageText, Texts;
    var n := |texts| - 1;
    if p in OfPageText(page, registered, texts[n]) {
      text := texts[n];
    } else {
      text := SaidOfText(page, registered, texts[..n], p);
    }
  }

  // --- The ledger ---

  lemma {:induction false} LedgerIsWanted(s: Sorted, document: string, hash: string -> string, was: set<string>,
                                          now: seq<string>, texts: seq<string>)
    requires Good(s) && Texted(s)
    ensures ToSet(LedgerFor(s, document, hash, was, texts)) == WantOf(EntriesFor(s, was, now, texts), document, hash)
  {
    hide Fates, Texted, Owes, LineOwed, Good, WantOf, ToSet, LineOfEntry, WithCount;
    if texts == [] {
      NothingWanted(document, hash);
    } else {
      var n := |texts| - 1;
      var entries, lines := EntriesFor(s, was, now, texts[..n]), LedgerFor(s, document, hash, was, texts[..n]);
      LedgerIsWanted(s, document, hash, was, now, texts[..n]);
      if Fates(s, was, texts[n]).HasEntry? {
        FateHasText(s, was, texts[n]);
        LineIsOwed(s, document, hash, was, texts[n], multiset(now)[texts[n]]);
        WantAppend(entries, lines, WithCount(Fates(s, was, texts[n]).entry, multiset(now)[texts[n]]), document, hash);
      } else {
        assert entries + [] == entries && lines + [] == lines;
      }
    }
  }

  lemma NothingWanted(document: string, hash: string -> string)
    ensures ToSet([]) == WantOf([], document, hash) == {}
  {
  }

  lemma WantAppend(entries: seq<Raw>, lines: seq<L.Line>, e: Raw, document: string, hash: string -> string)
    requires ToSet(lines) == WantOf(entries, document, hash) && NamesTargets(e)
    ensures ToSet(lines + if Owes(e) then [LineOwed(e, document, hash)] else [])
            == WantOf(entries + [e], document, hash)
  {
    hide LineOwed, NamesTargets, L.IsLedgerKind;
    var more := if Owes(e) then [LineOwed(e, document, hash)] else [];
    forall l ensures l in WantOf(entries + [e], document, hash) <==> l in ToSet(lines + more) {
      if l in WantOf(entries + [e], document, hash) {
        var x :| x in entries + [e] && Owes(x) && l == LineOwed(x, document, hash);
        assert x in entries ==> l in WantOf(entries, document, hash);
      }
      if l in ToSet(lines) {
        var x :| x in entries && Owes(x) && l == LineOwed(x, document, hash);
        assert x in entries + [e];
      }
      assert e in entries + [e];
    }
  }

  lemma LineIsOwed(s: Sorted, document: string, hash: string -> string, was: set<string>, text: string, times: nat)
    requires Good(s) && Texted(s) && Fates(s, was, text).HasEntry?
    ensures var fate := Fates(s, was, text).entry;
            && NamesTargets(fate)
            && var e := WithCount(fate, times);
               NamesTargets(e)
               && LineOfEntry(fate, document, hash, text) == if Owes(e) then [LineOwed(e, document, hash)] else []
  {
    hide L.IsLedgerKind;
    FateHasText(s, was, text);
  }

  /** The plan's ledger lines are the ones its registry's entries want. */
  lemma PlanLedgerIsWanted(document: string, now: seq<string>, was: set<string>, rows: seq<Row>, place: nat -> Place,
                           resolve: string -> Resolved, hash: string -> string)
    ensures var plan := PlanOf(document, now, was, rows, place, resolve, hash);
            ToSet(plan.ledger) == WantOf(plan.entries, document, hash)
  {
    hide SettledOf, PlanOf, EntriesFor, LedgerFor, Distinct, Texted, Good, WantOf;
    var s := SettledOf(rows, place, now, resolve);
    PlanWrites(document, now, was, rows, place, resolve, hash);
    SettledTexted(rows, place, now, resolve);
    LedgerIsWanted(s, document, hash, was, now, Distinct(now));
  }

  /** Generating a page: a ledger that met the rule, with the page's lines rewritten from the
      plan, meets it for the plan's registry beside the other documents' ones. */
  lemma GeneratedLedgerMeetsTheRule(document: string, now: seq<string>, was: set<string>, rows: seq<Row>,
                                    place: nat -> Place, resolve: string -> Resolved,
                                    hash: string -> string, existing: string, want: set<L.Line>)
    requires '\t' !in document && '\n' !in document && forall t :: L.IsHash(hash(t))
    requires (forall l :: l in want ==> L.Plain(l)) && L.Meets(existing, want)
    ensures var plan := PlanOf(document, now, was, rows, place, resolve, hash);
            L.Meets(LedgerText.Rewritten(existing, ToSet(plan.ledger), {document}),
                    LedgerText.Others(want, {document}) + WantOf(plan.entries, document, hash))
  {
    hide PlanOf, WantOf, L.Meets, LedgerText.Rewritten, L.IsHash;
    var plan := PlanOf(document, now, was, rows, place, resolve, hash);
    PlanLedgerIsWanted(document, now, was, rows, place, resolve, hash);
    forall l | l in ToSet(plan.ledger) ensures L.Plain(l) {
      WantedIsPlain(plan.entries, document, hash, l);
    }
    LedgerText.RuleIsKept(existing, want, ToSet(plan.ledger), {document});
  }
}
