/** Which problems the whole check of the claims reports, each by what it means of the tree. */
module GateReports {
  import opened Ordering
  import opened Sequences
  import opened Registry
  import opened Gate
  import RegistryReports

  /** The file below the claims directory is some eligible document's registry. */
  ghost predicate IsSomeRegistry(eligible: seq<string>, f: string) {
    exists d :: d in eligible && "docs/_claims/" + Dotted(d) + ".toml" == f
  }

  /** What is reported of a tree, but for the ledger. */
  ghost predicate Reports(inv: Inventory, tree: Tree, pending: seq<string>, deferred: seq<string>, p: GateProblem) {
    var registered := Registered(tree.files, Expected(inv.eligible));
    match p
    case NoRegistryHere(f) =>
      f in tree.files && f != LEDGER && !IsSomeRegistry(inv.eligible, f) && f in inv.others
    case NotARegistry(f) =>
      f in tree.files && f != LEDGER && !IsSomeRegistry(inv.eligible, f) && f !in inv.others
    case InBoth(documents) => documents != {} && forall d :: d in documents <==> d in pending && d in deferred
    case Disordered(roll) => !StrictlySorted(if roll.PENDING? then pending else deferred)
    case NotEligible(roll, d) => d in (if roll.PENDING? then pending else deferred) && d !in inv.eligible
    case HasRegistry(roll, d) =>
      d in (if roll.PENDING? then pending else deferred) && d in inv.eligible && d in registered
    case NowhereListed(d) => d in inv.eligible && d !in registered && d !in pending && d !in deferred
    case InFile(d, problem) =>
      d in registered
      && RegistryReports.FileHas(tree.file(RegistryPath(d)), d, tree.page(d), tree.bad(d), problem)
  }

  lemma {:induction false} ExpectedAre(eligible: seq<string>, f: string)
    ensures f in Expected(eligible) <==> IsSomeRegistry(eligible, f)
  {
    hide Dotted;
    if eligible != [] {
      var n := |eligible| - 1;
      assert eligible == eligible[..n] + [eligible[n]];
      ExpectedAre(eligible[..n], f);
      PathIs(eligible[n]);
    }
  }

  lemma PathIs(d: string)
    ensures RegistryPath(d) == "docs/_claims/" + Dotted(d) + ".toml"
  {
    assert CLAIMS_DIR + "/" == "docs/_claims/";
  }

  lemma {:induction false} WalkIs(files: seq<string>, expected: map<string, string>, others: set<string>,
                                  p: GateProblem)
    ensures p in WalkProblems(files, expected, others) <==>
            match p
            case NoRegistryHere(f) => f in files && f != LEDGER && f !in expected && f in others
            case NotARegistry(f) => f in files && f != LEDGER && f !in expected && f !in others
            case _ => false
  {
    if files != [] {
      var n := |files| - 1;
      WalkIs(files[..n], expected, others, p);
      assert files == files[..n] + [files[n]];
    }
  }

  lemma {:induction false} RolledAre(roll: Roll, listed: seq<string>, eligible: seq<string>, registered: set<string>,
                                     p: GateProblem)
    ensures p in AllRolled(roll, listed, eligible, registered) <==>
            match p
            case NotEligible(r, d) => r == roll && d in listed && d !in eligible
            case HasRegistry(r, d) => r == roll && d in listed && d in eligible && d in registered
            case _ => false
  {
    if listed != [] {
      var n := |listed| - 1;
      RolledAre(roll, listed[..n], eligible, registered, p);
      assert listed == listed[..n] + [listed[n]];
    }
  }

  lemma NowhereIs(documents: seq<string>, p: GateProblem)
    ensures p in Nowhere(documents) <==> p.NowhereListed? && p.document in documents
  {
    if p.NowhereListed? && p.document in documents {
      var k :| 0 <= k < |documents| && documents[k] == p.document;
      assert Nowhere(documents)[k] == p;
    }
  }

  lemma {:induction false} FilesAre(tree: Tree, documents: seq<string>, p: GateProblem)
    ensures p in AllFiles(tree, documents) <==>
            p.InFile? && p.document in documents
            && RegistryReports.FileHas(tree.file(RegistryPath(p.document)), p.document, tree.page(p.document),
                                       tree.bad(p.document), p.problem)
  {
    hide OneFile, RegistryReports.FileHas;
    if documents != [] {
      var n := |documents| - 1;
      FilesAre(tree, documents[..n], p);
      assert documents == documents[..n] + [documents[n]];
      FileIs(tree, documents[n], p);
    }
  }

  lemma FileIs(tree: Tree, document: string, p: GateProblem)
    ensures p in OneFile(tree, document) <==>
            p.InFile? && p.document == document
            && RegistryReports.FileHas(tree.file(RegistryPath(document)), document, tree.page(document),
                                       tree.bad(document), p.problem)
  {
    hide FileProblems, RegistryReports.FileHas, RegistryPath;
    var found := FileProblems(tree.file(RegistryPath(document)), document, tree.page(document), tree.bad(document));
    if p.InFile? {
      RegistryReports.FileReportedIs(tree.file(RegistryPath(document)), document, tree.page(document),
                                     tree.bad(document), p.problem);
      if p.document == document && p.problem in found {
        var k :| 0 <= k < |found| && found[k] == p.problem;
        assert OneFile(tree, document)[k] == p;
      }
    }
  }

  lemma OnlyIs(x: GateProblem, when: bool, p: GateProblem)
    ensures p in Only(x, when) <==> when && p == x
  {
  }

  /** A problem is reported exactly when the tree has it. */
  lemma ReportedIs(inv: Inventory, tree: Tree, pending: seq<string>, deferred: seq<string>, p: GateProblem)
    ensures p in GateProblems(inv, tree, pending, deferred) <==> Reports(inv, tree, pending, deferred, p)
  {
    hide Expected, Registered, WalkProblems, AllRolled, AllFiles, Sorted, StrictlySorted, Nowhere, Only;
    hide RegistryReports.FileHas, IsSomeRegistry, RegistryPath;
    var expected := Expected(inv.eligible);
    var registered, both := Registered(tree.files, expected), ToSet(pending) * ToSet(deferred);
    WalkIs(tree.files, expected, inv.others, p);
    OnlyIs(InBoth(both), both != {}, p);
    OnlyIs(Disordered(PENDING), !StrictlySorted(pending), p);
    OnlyIs(Disordered(DEFERRED), !StrictlySorted(deferred), p);
    RolledAre(PENDING, pending, inv.eligible, registered, p);
    RolledAre(DEFERRED, deferred, inv.eligible, registered, p);
    NowhereIs(Sorted(Left(inv, registered, pending, deferred)), p);
    FilesAre(tree, Sorted(registered), p);
    if p.NoRegistryHere? || p.NotARegistry? {
      ExpectedAre(inv.eligible, p.file);
    }
    if p.InBoth? {
      BothAre(pending, deferred, p.documents);
    }
  }

  lemma BothAre(pending: seq<string>, deferred: seq<string>, documents: set<string>)
    ensures documents == ToSet(pending) * ToSet(deferred) <==>
            forall d :: d in documents <==> d in pending && d in deferred
  {
  }
}
