/** A document's registry generated in a tree the check passes: it passes still exactly when the
    audit's rows account for the page (`doc_claims.py`). */
module Generated {
  import opened Wrappers
  import opened Ordering
  import opened Sequences
  import opened Registry
  import opened RegistryFacts
  import opened Gate
  import opened AuditPlan
  import opened AuditFacts
  import opened AuditEntries
  import L = Ledger
  import LedgerText

  /** The tree with the plan's registry written and the document's ledger lines replaced. */
  function WithPlan(tree: Tree, document: string, plan: Content): Tree {
    var path := RegistryPath(document);
    tree.(files := tree.files + [path],
          file := f => if f == path then Parsed(false, Some(document), Some(plan.entries)) else tree.file(f),
          ledger := Some(LedgerText.Rewritten(LedgerOf(tree), ToSet(plan.ledger), {document})))
  }

  /** The list without the document. */
  function TakenOff(pending: seq<string>, document: string): seq<string> {
    Ordering.Sorted(ToSet(pending) - {document})
  }

  /** A pending document whose registry path is no other document's. */
  predicate IsPending(inv: Inventory, pending: seq<string>, document: string) {
    var expected, path := Expected(inv.eligible), RegistryPath(document);
    document in pending && path in expected && expected[path] == document
  }

  lemma NotTheLedger(document: string)
    ensures RegistryPath(document) != LEDGER
  {
    var path := RegistryPath(document);
    assert path[|path| - 1] == 'l' && LEDGER[|LEDGER| - 1] == 'v';
  }

  lemma OneMoreRegistered(inv: Inventory, tree: Tree, pending: seq<string>, document: string, plan: Content)
    requires IsPending(inv, pending, document)
    ensures Registered(WithPlan(tree, document, plan).files, Expected(inv.eligible))
            == Registered(tree.files, Expected(inv.eligible)) + {document}
  {
    hide Expected, RegistryPath, LedgerText.Rewritten;
    NotTheLedger(document);
    var path, expected := RegistryPath(document), Expected(inv.eligible);
    var now, was := Registered(tree.files + [path], expected), Registered(tree.files, expected);
    forall d
      ensures d in now <==> d in was + {document}
    {
      if d == document {
        assert path in tree.files + [path] && IsRegistry(path, expected);
      }
    }
  }

  /** The other registries are as they were. */
  lemma OthersHold(inv: Inventory, tree: Tree, pending: seq<string>, document: string, plan: Content, other: string)
    requires IsPending(inv, pending, document) && other != document
    requires other in Registered(tree.files, Expected(inv.eligible))
    ensures var after := WithPlan(tree, document, plan);
            && (FileHolds(after, other) <==> FileHolds(tree, other))
            && EntriesOf(after, other) == EntriesOf(tree, other)
  {
    hide Expected, RegistryPath, LedgerText.Rewritten, AllAcceptable, NoneTwice, Bag, Texts, ReadEntries;
    var expected := Expected(inv.eligible);
    var f :| f in tree.files && IsRegistry(f, expected) && expected[f] == other;
    assert RegistryPath(other) == f != RegistryPath(document);
  }

  /** The new registry holds exactly when the check finds no problem with its entries. */
  lemma NewHolds(tree: Tree, document: string, plan: Content, units: seq<Unit>)
    requires tree.page(document) == Units(units)
    ensures var after := WithPlan(tree, document, plan);
            && (FileHolds(after, document) <==> RegistryProblems(plan.entries, units, tree.bad(document)) == [])
            && (FileHolds(after, document) ==> EntriesOf(after, document) == plan.entries)
  {
    hide RegistryPath, LedgerText.Rewritten, AllAcceptable, NoneTwice, Bag, Texts, ReadEntries, RegistryProblems;
    RegistryIsExact(plan.entries, units, tree.bad(document));
    EntriesAreExact(plan.entries, tree.bad(document));
  }

  /** What all registries want is what they wanted and what the new one wants. */
  lemma MoreWanted(inv: Inventory, tree: Tree, pending: seq<string>, document: string, plan: Content,
                   hash: string -> string)
    requires IsPending(inv, pending, document) && document !in Registered(tree.files, Expected(inv.eligible))
    requires EntriesOf(WithPlan(tree, document, plan), document) == plan.entries
    ensures var want := Wanted(tree, WithRegistry(inv, tree), hash);
            var after := WithPlan(tree, document, plan);
            && LedgerText.Others(want, {document}) == want
            && Wanted(after, WithRegistry(inv, after), hash) == want + WantOf(plan.entries, document, hash)
  {
    hide Expected, Registered, RegistryPath, EntriesOf, WantOf, WithPlan, Wanted;
    hide Ordering.Sorted, StrictlySorted, IsPending;
    var after := WithPlan(tree, document, plan);
    var before, now := WithRegistry(inv, tree), WithRegistry(inv, after);
    OneMoreRegistered(inv, tree, pending, document, plan);
    forall d | d in before
      ensures d != document && EntriesOf(after, d) == EntriesOf(tree, d)
    {
      OthersHold(inv, tree, pending, document, plan, d);
    }
    forall l
      ensures l in Wanted(after, now, hash)
              <==> l in Wanted(tree, before, hash) || l in WantOf(plan.entries, document, hash)
      ensures l in Wanted(tree, before, hash) ==> l.document != document
    {
      WantedHas(after, now, hash, l);
      WantedHas(tree, before, hash, l);
      assert document in now;
      forall d | d in before && l in WantOf(EntriesOf(tree, d), d, hash) ensures l.document != document {
        WantsItsOwn(EntriesOf(tree, d), d, hash, l);
      }
    }
  }

  lemma WantsItsOwn(entries: seq<Raw>, document: string, hash: string -> string, l: L.Line)
    requires l in WantOf(entries, document, hash)
    ensures l.document == document
  {
  }

  /** A pending document of a tree that the check passes, generated and taken off the list: the
      check passes the tree exactly when the audit's rows make an entry due for every unit of the
      page, and none is there more than 999 times. */
  lemma GeneratedGateHolds(inv: Inventory, tree: Tree, pending: seq<string>, deferred: seq<string>,
                           hash: string -> string, document: string, units: seq<Unit>, was: set<string>,
                           rows: seq<AuditPlan.Row>, place: nat -> Place, resolve: string -> Resolved)
    requires Writable(inv.eligible, hash) && GateHolds(inv, tree, pending, deferred, hash)
    requires IsPending(inv, pending, document) && tree.page(document) == Units(units) && Verifies(resolve)
    requires var plan := PlanOf(document, Texts(units), was, rows, place, resolve, hash);
             forall e, t :: e in plan.entries && e.Entry? && e.targets.Some? && t in e.targets.value ==>
               !tree.bad(document)(e, t)
    ensures var plan := PlanOf(document, Texts(units), was, rows, place, resolve, hash);
            GateHolds(inv, WithPlan(tree, document, plan), TakenOff(pending, document), deferred, hash)
            <==> forall t :: t in Texts(units) ==>
                   GetsEntry(rows, place, Texts(units), resolve, was, t) && multiset(Texts(units))[t] <= COUNT_MAX
  {
    hide PlanOf, Verifies, GetsEntry, Expected, Registered, Wanted, WithPlan, FileHolds, Texts, RegistryProblems;
    hide L.Meets, LedgerText.Rewritten, LedgerText.Others, Ordering.Sorted, StrictlySorted, IsPending;
    hide WantOf, EntriesOf, RegistryPath;
    var plan := PlanOf(document, Texts(units), was, rows, place, resolve, hash);
    var after := WithPlan(tree, document, plan);
    NewHolds(tree, document, plan, units);
    PlanMeetsTheRegistryCheck(document, units, was, rows, place, resolve, hash, tree.bad(document));
    OneMoreRegistered(inv, tree, pending, document, plan);
    AllButTheLedger(inv, tree, pending, deferred, hash, document, plan);
    if FileHolds(after, document) {
      MoreWanted(inv, tree, pending, document, plan, hash);
      WantedArePlain(inv, tree, hash);
      GeneratedLedgerMeetsTheRule(document, Texts(units), was, rows, place, resolve, hash, LedgerOf(tree),
                                  Wanted(tree, WithRegistry(inv, tree), hash));
      LedgerAfter(tree, document, plan);
    }
  }

  lemma LedgerAfter(tree: Tree, document: string, plan: Content)
    ensures LedgerOf(WithPlan(tree, document, plan))
            == LedgerText.Rewritten(LedgerOf(tree), ToSet(plan.ledger), {document})
  {
    hide LedgerText.Rewritten, RegistryPath;
  }

  /** All but the new registry and the ledger is in order as before. */
  lemma AllButTheLedger(inv: Inventory, tree: Tree, pending: seq<string>, deferred: seq<string>,
                        hash: string -> string, document: string, plan: Content)
    requires GateHolds(inv, tree, pending, deferred, hash) && IsPending(inv, pending, document)
    ensures var after := WithPlan(tree, document, plan);
            var expected, rest := Expected(inv.eligible), TakenOff(pending, document);
            var registered, now := Registered(tree.files, expected), Registered(after.files, expected);
            && document in inv.eligible && document !in registered && now == registered + {document}
            && (forall f :: f in after.files ==> f == LEDGER || f in expected)
            && StrictlySorted(rest) && Shared(inv.eligible, now, rest, deferred)
            && forall d :: d in registered ==> FileHolds(after, d)
  {
    hide Expected, Registered, Wanted, FileHolds, L.Meets, LedgerText.Rewritten;
    hide Ordering.Sorted, StrictlySorted, RegistryPath;
    var after := WithPlan(tree, document, plan);
    OneMoreRegistered(inv, tree, pending, document, plan);
    forall d | d in Registered(tree.files, Expected(inv.eligible))
      ensures FileHolds(after, d)
    {
      OthersHold(inv, tree, pending, document, plan, d);
    }
  }
}
