/** What the generator writes for a unit, by the audit's rows alone. */
module AuditNames {
  import opened Wrappers
  import opened Sequences
  import opened Registry
  import opened AuditPlan
  import opened AuditFacts
  import opened AuditCounts
  import opened AuditEntries

  // --- The first of each ---

  /** `x` stands at `i` and nowhere before. */
  ghost predicate FirstAt<T>(s: seq<T>, x: T, i: nat) {
    i < |s| && s[i] == x && x !in s[..i]
  }

  /** The members of `s`, once each, in the order in which each first occurs. */
  ghost predicate IsFirsts<T(!new)>(s: seq<T>, d: seq<T>) {
    && (forall k :: 0 <= k < |d| ==> d[k] in s)
    && (forall k :: 0 <= k < |s| ==> s[k] in d)
    && forall j, k, a: nat, b: nat :: 0 <= j < k < |d| && FirstAt(s, d[j], a) && FirstAt(s, d[k], b) ==> a < b
  }

  lemma {:induction false} HasFirst<T>(s: seq<T>, x: T) returns (i: nat)
    requires x in s
    ensures FirstAt(s, x, i)
  {
    var n := |s| - 1;
    assert s == s[..n] + [s[n]];
    if x in s[..n] {
      i := HasFirst(s[..n], x);
      assert s[..i] == s[..n][..i];
    } else {
      i := n;
    }
  }

  lemma {:induction false} DistinctIsFirsts<T(!new)>(s: seq<T>)
    ensures IsFirsts(s, Distinct(s))
  {
    var d := Distinct(s);
    if s != [] {
      var n := |s| - 1;
      var init, last := s[..n], s[n];
      DistinctIsFirsts(init);
      var e := Distinct(init);
      forall j, k, a: nat, b: nat | 0 <= j < k < |d| && FirstAt(s, d[j], a) && FirstAt(s, d[k], b)
        ensures a < b
      {
        assert d[j] == e[j] && e[j] in init;
        var i := HasFirst(init, e[j]);
        assert s[..i] == init[..i];
        OneFirst(s, d[j], a, i);
        if k < |e| {
          var m := HasFirst(init, e[k]);
          assert s[..m] == init[..m];
          OneFirst(s, d[k], b, m);
          assert FirstAt(init, e[j], i) && FirstAt(init, e[k], m);
        } else {
          LastIsFirst(s, b);
        }
      }
    }
  }

  lemma LastIsFirst<T>(s: seq<T>, b: nat)
    requires s != [] && s[|s| - 1] !in s[..|s| - 1] && FirstAt(s, s[|s| - 1], b)
    ensures b == |s| - 1
  {
    hide FirstAt;
    var n: nat := |s| - 1;
    var last := s[n];
    IsThere(s, last, b);
    if b < n {
      StandsBefore(s, last, b, n);
    }
  }

  lemma IsThere<T>(s: seq<T>, x: T, i: nat)
    requires FirstAt(s, x, i)
    ensures i < |s| && s[i] == x
  {
  }

  lemma OneFirst<T>(s: seq<T>, x: T, a: nat, b: nat)
    requires FirstAt(s, x, a) && FirstAt(s, x, b)
    ensures a == b
  {
    if a < b {
      StandsBefore(s, x, a, b);
    } else if b < a {
      StandsBefore(s, x, b, a);
    }
  }

  lemma StandsBefore<T>(s: seq<T>, x: T, a: nat, b: nat)
    requires a < b <= |s| && s[a] == x
    ensures x in s[..b]
  {
    assert s[..b][a] == x;
  }

  lemma {:induction false} DistinctAgain<T(!new)>(s: seq<T>, more: seq<T>)
    requires forall x :: x in more ==> x in s
    ensures Distinct(s + more) == Distinct(s)
  {
    if more == [] {
      assert s + more == s;
    } else {
      var n := |more| - 1;
      assert more == more[..n] + [more[n]];
      assert s + more == (s + more[..n]) + [more[n]];
      DistinctAgain(s, more[..n]);
      DistinctNext(s + more[..n], more[n]);
      assert more[n] in more && more[n] in s + more[..n];
    }
  }

  lemma {:induction false} DistinctSame<T(!new)>(a: seq<T>, b: seq<T>, more: seq<T>)
    requires Distinct(a) == Distinct(b)
    ensures Distinct(a + more) == Distinct(b + more)
  {
    if more == [] {
      assert a + more == a && b + more == b;
    } else {
      var n := |more| - 1;
      DistinctSame(a, b, more[..n]);
      assert a + more == (a + more[..n]) + [more[n]] && b + more == (b + more[..n]) + [more[n]];
      DistinctNext(a + more[..n], more[n]);
      DistinctNext(b + more[..n], more[n]);
      assert more[n] in Distinct(a + more[..n]) <==> more[n] in a + more[..n];
    }
  }

  // --- Which rows go to a unit ---

  /** The row stands in prose, maps to a unit with this text that is on the page, and its own text
      need not go. */
  predicate Maps(rows: seq<Row>, place: nat -> Place, now: seq<string>, text: string, m: nat) {
    && m < |rows| && rows[m].tag != Some(R) && rows[m].tag != Some(X)
    && !place(m).inside && text in place(m).mapped && text in now
  }

  /** The row keeps the unit from an entry of its own: its text must go and it maps to it, or it
      maps to none and the unit is on its line. */
  predicate Holds(rows: seq<Row>, place: nat -> Place, text: string, m: nat) {
    && m < |rows| && !place(m).inside
    && if place(m).mapped == [] then text in place(m).onLine
       else (rows[m].tag == Some(R) || rows[m].tag == Some(X)) && text in place(m).mapped
  }

  /** A row that cannot be mapped: a device's, or one without a tag that is not covered or whose
      `by` is empty. */
  predicate NotMappable(row: Row) {
    match row.tag
    case None => !row.covered || row.cites == ""
    case Some(tag) => tag != A && tag != S && tag != T
  }

  lemma MapsIs(rows: seq<Row>, place: nat -> Place, now: seq<string>, text: string, m: nat)
    requires m < |rows|
    ensures Maps(rows, place, now, text, m) <==> text in GoesTo(rows[m], place(m), now)
    ensures Holds(rows, place, text, m) <==> text in HeldBy(rows[m], place(m))
    ensures NotMappable(rows[m]) <==> IsOther(rows[m])
  {
  }

  /** Some mapped row has the tag. */
  ghost predicate HasTag(rows: seq<Row>, place: nat -> Place, now: seq<string>, text: string, tag: Tag) {
    exists m: nat :: Maps(rows, place, now, text, m) && rows[m].tag == Some(tag)
  }

  /** All targets that the first `n` rows which map to the unit resolve to, row by row. */
  function NamedBy(rows: seq<Row>, place: nat -> Place, now: seq<string>, resolve: string -> Resolved, text: string,
                   n: nat): seq<string>
    requires n <= |rows|
  {
    if n == 0 then []
    else
      NamedBy(rows, place, now, resolve, text, n - 1)
      + if Maps(rows, place, now, text, n - 1) then resolve(rows[n - 1].cites).targets else []
  }

  /** What becomes of a unit of the page, by the rows. */
  ghost predicate Becomes(rows: seq<Row>, place: nat -> Place, now: seq<string>, resolve: string -> Resolved,
                          was: set<string>, text: string, fate: Fate) {
    var named := NamedBy(rows, place, now, resolve, text, |rows|);
    if exists m: nat :: Maps(rows, place, now, text, m) then
      if exists m: nat :: Maps(rows, place, now, text, m) && NotMappable(rows[m]) then fate == Held
      else if HasTag(rows, place, now, text, A) then Names(fate, text, ["untested:A"])
      else if HasTag(rows, place, now, text, S) then Names(fate, text, ["untested:S"])
      else if HasTag(rows, place, now, text, T) then Names(fate, text, ["untested:T"])
      else if named == [] then fate == Held
      else exists targets :: Names(fate, text, targets) && NoRepeats(targets) && IsFirsts(named, targets)
    else if exists m: nat :: Holds(rows, place, text, m) then fate == Held
    else if text !in was then fate == New
    else Names(fate, text, ["exempt:baseline"])
  }

  /** An entry of this text and these targets and nothing else. */
  predicate Names(fate: Fate, text: string, targets: seq<string>) {
    fate == HasEntry(Entry(text, false, One, Some(targets), None))
  }

  // --- The rows of a unit, in order ---

  function Times(n: nat, count: nat): seq<nat> {
    seq(count, _ => n)
  }

  function RowsOn(s: Stage, text: string): seq<nat> {
    if text in s.rowsOf then s.rowsOf[text] else []
  }

  lemma {:induction false} AddRowsAppends(s: Stage, texts: seq<string>, n: nat, text: string)
    ensures RowsOn(AddRows(s, texts, n), text) == RowsOn(s, text) + Times(n, multiset(texts)[text])
  {
    if texts != [] {
      var k := |texts| - 1;
      AddRowsAppends(s, texts[..k], n, text);
      assert texts == texts[..k] + [texts[k]];
      var c := multiset(texts[..k])[text];
      assert Times(n, c + 1) == Times(n, c) + [n];
    }
  }

  lemma {:induction false} CitedAppend(numbers: seq<nat>, rows: seq<Row>, resolve: string -> Resolved, n: nat,
                                       count: nat)
    requires Within(numbers, rows) && n < |rows|
    ensures Within(numbers + Times(n, count), rows)
    ensures Distinct(Cited(numbers + Times(n, count), rows, resolve))
            == Distinct(Cited(numbers, rows, resolve)
                        + if count > 0 then resolve(rows[n].cites).targets else [])
  {
    hide Distinct;
    var cited := Cited(numbers, rows, resolve);
    if count == 0 {
      assert numbers + Times(n, 0) == numbers && cited + [] == cited;
    } else {
      CitedAppend(numbers, rows, resolve, n, count - 1);
      var more, targets := numbers + Times(n, count - 1), resolve(rows[n].cites).targets;
      assert numbers + Times(n, count) == more + [n];
      assert (more + [n])[..|more|] == more;
      assert Cited(more + [n], rows, resolve) == Cited(more, rows, resolve) + targets;
      if count == 1 {
        assert more == numbers;
      } else {
        DistinctSame(Cited(more, rows, resolve), cited + targets, targets);
        DistinctAgain(cited + targets, targets);
      }
    }
  }

  lemma {:induction false} CitedNamed(rows: seq<Row>, place: nat -> Place, now: seq<string>,
                                      resolve: string -> Resolved, text: string, n: nat)
    requires n <= |rows|
    ensures var numbers := RowsOn(PlaceRows(rows[..n], place, now), text);
            && Within(numbers, rows)
            && Distinct(Cited(numbers, rows, resolve)) == Distinct(NamedBy(rows, place, now, resolve, text, n))
  {
    hide Distinct, AddRows, PlaceRow, GoesTo, Maps;
    if n > 0 {
      CitedNamed(rows, place, now, resolve, text, n - 1);
      assert rows[..n][..n - 1] == rows[..n - 1];
      var s, row, p := PlaceRows(rows[..n - 1], place, now), rows[n - 1], place(n - 1);
      var t, texts := PlaceRow(s, n - 1, row, p, now), GoesTo(row, p, now);
      AddRowsKeeps(s, t, texts, n - 1, row, p, now);
      AddRowsAppends(Stage(t.plan, s.rowsOf, s.names, t.held), texts, n - 1, text);
      var numbers, count := RowsOn(s, text), multiset(texts)[text];
      MapsIs(rows, place, now, text, n - 1);
      CitedAppend(numbers, rows, resolve, n - 1, count);
      DistinctSame(Cited(numbers, rows, resolve), NamedBy(rows, place, now, resolve, text, n - 1),
                   if count > 0 then resolve(row.cites).targets else []);
    }
  }

  // --- The fate of a unit ---

  /** Some row that maps to the unit is of this sort. */
  ghost predicate Mapped(rows: seq<Row>, place: nat -> Place, now: seq<string>, text: string, test: Row -> bool) {
    exists m: nat :: Maps(rows, place, now, text, m) && test(rows[m])
  }

  lemma MappedIs(rows: seq<Row>, place: nat -> Place, now: seq<string>, text: string, test: Row -> bool)
    ensures Mapped(rows, place, now, text, test) <==> Goes(rows, place, now, text, test)
  {
    hide GoesTo;
    if Mapped(rows, place, now, text, test) {
      var m: nat :| Maps(rows, place, now, text, m) && test(rows[m]);
      MapsIs(rows, place, now, text, m);
    }
    if Goes(rows, place, now, text, test) {
      var m: nat :| m < |rows| && text in GoesTo(rows[m], place(m), now) && test(rows[m]);
      MapsIs(rows, place, now, text, m);
    }
  }

  lemma MapsIsRow(rows: seq<Row>, place: nat -> Place, now: seq<string>, text: string, m: nat)
    requires Maps(rows, place, now, text, m)
    ensures m < |rows|
  {
  }

  /** What is asked of a unit's rows, in terms of those that map to it. */
  lemma AskedIs(rows: seq<Row>, place: nat -> Place, now: seq<string>, text: string)
    requires var rowsOf := PlaceRows(rows, place, now).rowsOf; text in rowsOf && Within(rowsOf[text], rows)
    ensures var numbers := PlaceRows(rows, place, now).rowsOf[text];
            && (SomeRow(numbers, rows, IsOther)
                <==> exists m: nat :: Maps(rows, place, now, text, m) && NotMappable(rows[m]))
            && (SomeRow(numbers, rows, Tagged(A)) <==> HasTag(rows, place, now, text, A))
            && (SomeRow(numbers, rows, Tagged(S)) <==> HasTag(rows, place, now, text, S))
            && (SomeRow(numbers, rows, Tagged(T)) <==> HasTag(rows, place, now, text, T))
  {
    hide PlaceRows, Maps, GoesTo, Goes, SomeRow, NotMappable, IsOther;
    SomeRowIs(rows, place, now, text, IsOther);
    MappedIs(rows, place, now, text, IsOther);
    forall m: nat | Maps(rows, place, now, text, m)
      ensures m < |rows| && (NotMappable(rows[m]) <==> IsOther(rows[m]))
    {
      MapsIsRow(rows, place, now, text, m);
      MapsIs(rows, place, now, text, m);
    }
    TaggedIs(rows, place, now, text, A);
    TaggedIs(rows, place, now, text, S);
    TaggedIs(rows, place, now, text, T);
  }

  lemma TaggedIs(rows: seq<Row>, place: nat -> Place, now: seq<string>, text: string, tag: Tag)
    requires var rowsOf := PlaceRows(rows, place, now).rowsOf; text in rowsOf && Within(rowsOf[text], rows)
    ensures SomeRow(PlaceRows(rows, place, now).rowsOf[text], rows, Tagged(tag))
            <==> HasTag(rows, place, now, text, tag)
  {
    hide PlaceRows, Maps, GoesTo, Goes, SomeRow;
    SomeRowIs(rows, place, now, text, Tagged(tag));
    MappedIs(rows, place, now, text, Tagged(tag));
  }

  lemma KeyIsMapped(rows: seq<Row>, place: nat -> Place, now: seq<string>, resolve: string -> Resolved, text: string)
    ensures var stage := SettledOf(rows, place, now, resolve).stage;
            && (text in stage.rowsOf <==> exists m: nat :: Maps(rows, place, now, text, m))
            && (text in stage.rowsOf <==> text in stage.names)
            && (text in stage.held <==> exists m: nat :: Holds(rows, place, text, m))
  {
    hide PlaceRows, SettleUnits, GoesTo, HeldBy, Maps, Holds;
    var stage := SettledOf(rows, place, now, resolve).stage;
    assert rows[..|rows|] == rows;
    KeysAre(rows, place, now, resolve, text);
    HeldIs(rows, place, now, |rows|, text);
    forall m: nat
      ensures Maps(rows, place, now, text, m) <==> m < |rows| && text in GoesTo(rows[m], place(m), now)
      ensures Holds(rows, place, text, m) <==> m < |rows| && text in HeldBy(rows[m], place(m))
    {
      MapsOrNot(rows, place, now, text, m);
      if m < |rows| {
        MapsIs(rows, place, now, text, m);
      }
    }
  }

  lemma MapsOrNot(rows: seq<Row>, place: nat -> Place, now: seq<string>, text: string, m: nat)
    ensures m >= |rows| ==> !Maps(rows, place, now, text, m) && !Holds(rows, place, text, m)
  {
  }

  /** What the rows' targets make of a unit without a debt. */
  lemma TargetsAre(named: seq<string>, cited: seq<string>)
    requires Distinct(cited) == Distinct(named)
    ensures (Distinct(cited) == [] <==> named == []) && IsFirsts(named, Distinct(cited)) && NoRepeats(Distinct(cited))
  {
    hide IsFirsts;
    DistinctIsFirsts(named);
    DistinctOnce(named);
    assert named != [] ==> named[0] in Distinct(named);
    assert Distinct(named) != [] ==> Distinct(named)[0] in named;
  }

  /** Every unit's fate: whether it gets an entry and which targets that names. */
  lemma FateIs(rows: seq<Row>, place: nat -> Place, now: seq<string>, resolve: string -> Resolved, was: set<string>,
               text: string)
    ensures Becomes(rows, place, now, resolve, was, text, Fates(SettledOf(rows, place, now, resolve), was, text))
  {
    hide PlaceRows, SettleUnits, Maps, Holds, NotMappable, HasTag, NamedBy, IsFirsts, Distinct, Cited, SomeRow, Within;
    hide AllNameTargets;
    var stage := SettledOf(rows, place, now, resolve).stage;
    assert rows[..|rows|] == rows;
    KeyIsMapped(rows, place, now, resolve, text);
    EntriesAre(stage.plan, stage.rowsOf, stage.names, rows, resolve, text);
    if text in stage.rowsOf {
      var numbers := stage.rowsOf[text];
      AskedIs(rows, place, now, text);
      CitedNamed(rows, place, now, resolve, text, |rows|);
      TargetsAre(NamedBy(rows, place, now, resolve, text, |rows|), Cited(numbers, rows, resolve));
      EntryIs(text, numbers, rows, resolve);
    }
  }

  /** An entry by what its rows are asked. */
  lemma EntryIs(text: string, numbers: seq<nat>, rows: seq<Row>, resolve: string -> Resolved)
    requires Within(numbers, rows)
    ensures EntryOf(text, numbers, rows, resolve) ==
            if SomeRow(numbers, rows, IsOther) then None
            else if SomeRow(numbers, rows, Tagged(A)) then Some(Entry(text, false, One, Some(["untested:A"]), None))
            else if SomeRow(numbers, rows, Tagged(S)) then Some(Entry(text, false, One, Some(["untested:S"]), None))
            else if SomeRow(numbers, rows, Tagged(T)) then Some(Entry(text, false, One, Some(["untested:T"]), None))
            else if Distinct(Cited(numbers, rows, resolve)) == [] then None
            else Some(Entry(text, false, One, Some(Distinct(Cited(numbers, rows, resolve))), None))
  {
    hide SomeRow, Cited, Distinct;
    assert "untested:" + "A" == "untested:A" && "untested:" + "S" == "untested:S";
    assert "untested:" + "T" == "untested:T";
  }

  // --- The outcome of a row ---

  /** What a unit makes of one of its rows. */
  ghost function OnUnitOf(rows: seq<Row>, place: nat -> Place, now: seq<string>, resolve: string -> Resolved,
                          text: string, n: nat): Outcome
    requires n < |rows|
  {
    var found := resolve(rows[n].cites);
    if exists m: nat :: Maps(rows, place, now, text, m) && NotMappable(rows[m]) then ByHand
    else if HasTag(rows, place, now, text, A) || HasTag(rows, place, now, text, S) || HasTag(rows, place, now, text, T)
    then Outcome.Mapped
    else if found.targets != [] then Outcome.Mapped
    else if found.refused != [] && found.byHand == [] then Refused
    else ByHand
  }

  /** Some unit that the row maps to makes this of it. */
  ghost predicate Gives(rows: seq<Row>, place: nat -> Place, now: seq<string>, resolve: string -> Resolved, n: nat,
                        outcome: Outcome)
    requires n < |rows|
  {
    exists t :: Maps(rows, place, now, t, n) && OnUnitOf(rows, place, now, resolve, t, n) == outcome
  }

  lemma ResultIs(rows: seq<Row>, place: nat -> Place, now: seq<string>, resolve: string -> Resolved, text: string,
                 n: nat)
    requires n < |rows|
    requires var rowsOf := PlaceRows(rows, place, now).rowsOf; text in rowsOf && Within(rowsOf[text], rows)
    ensures ResultOn(PlaceRows(rows, place, now).rowsOf[text], rows, resolve, n)
            == OnUnitOf(rows, place, now, resolve, text, n)
  {
    hide PlaceRows, Maps, SomeRow, NotMappable, IsOther, HasTag, Within;
    AskedIs(rows, place, now, text);
  }

  /** A row that maps to units of the page is mapped when some unit maps it, else refused when some
      unit refuses it, else left to hand. */
  lemma RowOutcome(rows: seq<Row>, place: nat -> Place, now: seq<string>, resolve: string -> Resolved, n: nat)
    requires n < |rows| && exists t :: Maps(rows, place, now, t, n)
    ensures var s := SettledOf(rows, place, now, resolve);
            && n in s.settled.outcome
            && s.settled.outcome[n] == if Gives(rows, place, now, resolve, n, Outcome.Mapped) then Outcome.Mapped
                                       else if Gives(rows, place, now, resolve, n, Refused) then Refused
                                       else ByHand
  {
    hide PlaceRows, SettleUnits, Maps, GoesTo, ResultOn, OnUnitOf, AllNameTargets, NamesAreKeys, Within;
    var s := SettledOf(rows, place, now, resolve);
    var one :| Maps(rows, place, now, one, n);
    MapsIs(rows, place, now, one, n);
    OutcomeIsLeast(rows, place, now, resolve, n);
    forall t
      ensures t in GoesTo(rows[n], place(n), now) <==> Maps(rows, place, now, t, n)
      ensures t in GoesTo(rows[n], place(n), now) ==>
                ResultOn(s.stage.rowsOf[t], rows, resolve, n) == OnUnitOf(rows, place, now, resolve, t, n)
    {
      MapsIs(rows, place, now, t, n);
      if t in GoesTo(rows[n], place(n), now) {
        ResultIs(rows, place, now, resolve, t, n);
      }
    }
    LeastIs(rows, place, now, resolve, n, s.settled.outcome[n]);
  }

  /** The least of all that the units give. */
  lemma LeastIs(rows: seq<Row>, place: nat -> Place, now: seq<string>, resolve: string -> Resolved, n: nat,
                least: Outcome)
    requires n < |rows| && Gives(rows, place, now, resolve, n, least)
    requires forall t :: Maps(rows, place, now, t, n) ==> Rank(least) <= Rank(OnUnitOf(rows, place, now, resolve, t, n))
    ensures least == if Gives(rows, place, now, resolve, n, Outcome.Mapped) then Outcome.Mapped
                     else if Gives(rows, place, now, resolve, n, Refused) then Refused
                     else ByHand
  {
    hide Maps, OnUnitOf;
  }
}
