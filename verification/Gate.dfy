/** The whole check of the claims (`doc_claims.py`): the registries there are, the lists of
    documents without one, every registry against its page, and the ledger against them all. */
module Gate {
  import opened Wrappers
  import opened Ordering
  import opened Sequences
  import opened Registry
  import opened RegistryFacts
  import L = Ledger

  // --- The ledger lines wanted ---

  /** The ledger lines a registry's entries want. */
  function WantOf(entries: seq<Raw>, document: string, hash: string -> string): set<L.Line> {
    set e | e in entries && Owes(e) :: LineOwed(e, document, hash)
  }

  predicate Owes(e: Raw) {
    NamesTargets(e) && L.IsLedgerKind(e.targets.value[0])
  }

  function LineOwed(e: Raw, document: string, hash: string -> string): L.Line
    requires NamesTargets(e)
  {
    L.Line(e.targets.value[0], document, hash(e.text))
  }

  lemma WantedIsPlain(entries: seq<Raw>, document: string, hash: string -> string, l: L.Line)
    requires '\t' !in document && '\n' !in document && forall t :: L.IsHash(hash(t))
    requires l in WantOf(entries, document, hash)
    ensures L.Plain(l)
  {
    hide L.IsHash, L.IsLedgerKind;
    var e :| e in entries && Owes(e) && l == LineOwed(e, document, hash);
  }

  // --- A tree ---

  const CLAIMS_DIR := "docs/_claims"
  const LEDGER := "docs/_claims/_frozen.tsv"

  function Dotted(s: string): string {
    seq(|s|, k requires 0 <= k < |s| => if s[k] == '#' then '.' else s[k])
  }

  function RegistryPath(document: string): string {
    CLAIMS_DIR + "/" + Dotted(document) + ".toml"
  }

  /** The documents that may have a registry, each once in some order, and the others known. */
  datatype Inventory = Inventory(eligible: seq<string>, others: set<string>)

  /** The files below the claims directory, a registry by its path, a page by its document, the
      targets of a document's entries that do not hold, and the ledger where there is one. */
  datatype Tree = Tree(files: seq<string>, file: string -> File, page: string -> Page,
                       bad: string -> (Raw, string) -> bool, ledger: Option<string>)

  datatype Roll = PENDING | DEFERRED

  datatype GateProblem =
    | NoRegistryHere(file: string)
    | NotARegistry(file: string)
    | InBoth(documents: set<string>)
    | Disordered(roll: Roll)
    | NotEligible(roll: Roll, document: string)
    | HasRegistry(roll: Roll, document: string)
    | NowhereListed(document: string)
    | InFile(document: string, problem: FileProblem)

  /** Whose registry a path is; of two documents with one path, the later one's. */
  function Expected(eligible: seq<string>): (r: map<string, string>)
    ensures forall f :: f in r ==> r[f] in eligible && RegistryPath(r[f]) == f
  {
    if eligible == [] then map[]
    else
      var last := eligible[|eligible| - 1];
      assert eligible == eligible[..|eligible| - 1] + [last];
      Expected(eligible[..|eligible| - 1])[RegistryPath(last) := last]
  }

  /** The documents that have a registry. */
  function Registered(files: seq<string>, expected: map<string, string>): (r: set<string>)
    ensures forall d :: d in r <==> exists f :: f in files && IsRegistry(f, expected) && expected[f] == d
  {
    set f | f in files && IsRegistry(f, expected) :: expected[f]
  }

  predicate IsRegistry(f: string, expected: map<string, string>) {
    f != LEDGER && f in expected
  }

  // --- What is reported ---

  function WalkProblem(f: string, expected: map<string, string>, others: set<string>): seq<GateProblem> {
    if f == LEDGER || f in expected then []
    else if f in others then [NoRegistryHere(f)] else [NotARegistry(f)]
  }

  function WalkProblems(files: seq<string>, expected: map<string, string>, others: set<string>): seq<GateProblem> {
    if files == [] then []
    else
      WalkProblems(files[..|files| - 1], expected, others) + WalkProblem(files[|files| - 1], expected, others)
  }

  function OneRolled(roll: Roll, document: string, eligible: seq<string>, registered: set<string>): seq<GateProblem> {
    if document !in eligible then [NotEligible(roll, document)]
    else Only(HasRegistry(roll, document), document in registered)
  }

  function AllRolled(roll: Roll, listed: seq<string>, eligible: seq<string>, registered: set<string>)
    : seq<GateProblem>
  {
    if listed == [] then []
    else
      AllRolled(roll, listed[..|listed| - 1], eligible, registered)
      + OneRolled(roll, listed[|listed| - 1], eligible, registered)
  }

  function RollProblems(roll: Roll, listed: seq<string>, eligible: seq<string>, registered: set<string>)
    : seq<GateProblem>
  {
    Only(Disordered(roll), !StrictlySorted(listed)) + AllRolled(roll, listed, eligible, registered)
  }

  function Nowhere(documents: seq<string>): seq<GateProblem> {
    seq(|documents|, k requires 0 <= k < |documents| => NowhereListed(documents[k]))
  }

  function OneFile(tree: Tree, document: string): seq<GateProblem> {
    var found := FileProblems(tree.file(RegistryPath(document)), document, tree.page(document), tree.bad(document));
    seq(|found|, k requires 0 <= k < |found| => InFile(document, found[k]))
  }

  function AllFiles(tree: Tree, documents: seq<string>): seq<GateProblem> {
    if documents == [] then []
    else AllFiles(tree, documents[..|documents| - 1]) + OneFile(tree, documents[|documents| - 1])
  }

  /** The documents on neither list and without a registry. */
  function Left(inv: Inventory, registered: set<string>, pending: seq<string>, deferred: seq<string>): set<string> {
    ToSet(inv.eligible) - registered - ToSet(pending) - ToSet(deferred)
  }

  /** Everything reported but for the ledger, in order. */
  function GateProblems(inv: Inventory, tree: Tree, pending: seq<string>, deferred: seq<string>): seq<GateProblem> {
    var expected := Expected(inv.eligible);
    var registered, both := Registered(tree.files, expected), ToSet(pending) * ToSet(deferred);
    WalkProblems(tree.files, expected, inv.others)
    + Only(InBoth(both), both != {})
    + RollProblems(PENDING, pending, inv.eligible, registered)
    + RollProblems(DEFERRED, deferred, inv.eligible, registered)
    + Nowhere(Sorted(Left(inv, registered, pending, deferred)))
    + AllFiles(tree, Sorted(registered))
  }

  /** The well-formed entries of a document's registry. */
  function EntriesOf(tree: Tree, document: string): seq<Raw> {
    var file, page := tree.file(RegistryPath(document)), tree.page(document);
    if file.Parsed? && page.Units? && file.units.Some?
    then ReadEntries(file.units.value, tree.bad(document)).entries
    else []
  }

  /** The ledger lines that these documents' entries want. */
  function Wanted(tree: Tree, documents: seq<string>, hash: string -> string): set<L.Line> {
    if documents == [] then {}
    else
      var last := documents[|documents| - 1];
      Wanted(tree, documents[..|documents| - 1], hash) + WantOf(EntriesOf(tree, last), last, hash)
  }

  function LedgerOf(tree: Tree): string {
    if tree.ledger.Some? then tree.ledger.value else ""
  }

  // --- The loops ---

  method ExpectRegistries(eligible: seq<string>) returns (expected: map<string, string>)
    ensures expected == Expected(eligible)
  {
    expected := map[];
    for k := 0 to |eligible|
      invariant expected == Expected(eligible[..k])
    {
      assert eligible[..k + 1][..k] == eligible[..k];
      expected := expected[RegistryPath(eligible[k]) := eligible[k]];
    }
    assert eligible[..|eligible|] == eligible;
  }

  method WalkFiles(files: seq<string>, expected: map<string, string>, others: set<string>)
    returns (registered: set<string>, problems: seq<GateProblem>)
    ensures registered == Registered(files, expected)
    ensures problems == WalkProblems(files, expected, others)
  {
    registered, problems := {}, [];
    for k := 0 to |files|
      invariant registered == Registered(files[..k], expected)
      invariant problems == WalkProblems(files[..k], expected, others)
    {
      assert files[..k + 1][..k] == files[..k] && files[..k + 1] == files[..k] + [files[k]];
      var f := files[k];
      if f == LEDGER {
        continue;
      }
      if f in expected {
        registered := registered + {expected[f]};
      } else if f in others {
        problems := problems + [NoRegistryHere(f)];
      } else {
        problems := problems + [NotARegistry(f)];
      }
    }
    assert files[..|files|] == files;
  }

  method CheckRoll(roll: Roll, listed: seq<string>, eligible: seq<string>, registered: set<string>)
    returns (problems: seq<GateProblem>)
    ensures problems == RollProblems(roll, listed, eligible, registered)
  {
    hide StrictlySorted, Sorted;
    L.SortedIsItself(listed);
    var found := [];
    for k := 0 to |listed|
      invariant found == AllRolled(roll, listed[..k], eligible, registered)
    {
      assert listed[..k + 1][..k] == listed[..k];
      if listed[k] !in eligible {
        found := found + [NotEligible(roll, listed[k])];
      } else if listed[k] in registered {
        found := found + [HasRegistry(roll, listed[k])];
      }
    }
    assert listed[..|listed|] == listed;
    problems := Only(Disordered(roll), listed != Sorted(ToSet(listed))) + found;
  }

  method CheckFiles(tree: Tree, documents: seq<string>, hash: string -> string)
    returns (problems: seq<GateProblem>, want: set<L.Line>)
    ensures problems == AllFiles(tree, documents) && want == Wanted(tree, documents, hash)
  {
    problems, want := [], {};
    for k := 0 to |documents|
      invariant problems == AllFiles(tree, documents[..k]) && want == Wanted(tree, documents[..k], hash)
    {
      hide FileProblems, ReadEntries, WantOf;
      assert documents[..k + 1][..k] == documents[..k];
      var d := documents[k];
      var found, entries := CheckFile(tree.file(RegistryPath(d)), d, tree.page(d), tree.bad(d));
      assert entries == EntriesOf(tree, d);
      problems := problems + seq(|found|, i requires 0 <= i < |found| => InFile(d, found[i]));
      want := want + WantOf(entries, d, hash);
    }
    assert documents[..|documents|] == documents;
  }

  /** The whole check: everything it reports, and what it says of the ledger. */
  method Check(inv: Inventory, tree: Tree, pending: seq<string>, deferred: seq<string>, hash: string -> string)
    returns (problems: seq<GateProblem>, verdict: L.Verdict)
    requires Writable(inv.eligible, hash)
    ensures problems == GateProblems(inv, tree, pending, deferred)
    ensures problems == [] && verdict == L.FINE <==> GateHolds(inv, tree, pending, deferred, hash)
  {
    hide Expected, Registered, WalkProblems, RollProblems, AllFiles, Wanted, Sorted, StrictlySorted, L.Meets, L.Plain;
    hide GateHolds, Left, WantOf;
    var expected := ExpectRegistries(inv.eligible);
    var registered, strays := WalkFiles(tree.files, expected, inv.others);
    var both := ToSet(pending) * ToSet(deferred);
    var pendings := CheckRoll(PENDING, pending, inv.eligible, registered);
    var deferreds := CheckRoll(DEFERRED, deferred, inv.eligible, registered);
    var left := Sorted(Left(inv, registered, pending, deferred));
    var found, want := CheckFiles(tree, Sorted(registered), hash);
    problems := strays + Only(InBoth(both), both != {}) + pendings + deferreds + Nowhere(left) + found;
    WantedArePlain(inv, tree, hash);
    verdict := L.CheckLedger(tree.ledger, want);
    GateIsExact(inv, tree, pending, deferred, hash);
  }

  // --- What silence means ---

  /** Lines of the ledger can be written for these documents. */
  ghost predicate Writable(eligible: seq<string>, hash: string -> string) {
    && (forall d :: d in eligible ==> '\t' !in d && '\n' !in d)
    && forall t :: L.IsHash(hash(t))
  }

  /** The document's registry is in order and its units are the page's. */
  ghost predicate FileHolds(tree: Tree, document: string) {
    var file, page, bad := tree.file(RegistryPath(document)), tree.page(document), tree.bad(document);
    && file.Parsed? && !file.unknownKeys && file.document == Some(document)
    && page.Units? && file.units.Some?
    && AllAcceptable(file.units.value, bad) && NoneTwice(file.units.value)
    && Bag(file.units.value) == multiset(Texts(page.units))
  }

  /** Each eligible document is in exactly one of the three, and no other one is in any. */
  ghost predicate Shared(eligible: seq<string>, registered: set<string>, pending: seq<string>, deferred: seq<string>) {
    && (forall d :: d in eligible <==> d in registered || d in pending || d in deferred)
    && forall d :: !(d in registered && d in pending) && !(d in registered && d in deferred)
                   && !(d in pending && d in deferred)
  }

  ghost predicate GateHolds(inv: Inventory, tree: Tree, pending: seq<string>, deferred: seq<string>,
                            hash: string -> string) {
    var expected := Expected(inv.eligible);
    var registered := Registered(tree.files, expected);
    && (forall f :: f in tree.files ==> f == LEDGER || f in expected)
    && StrictlySorted(pending) && StrictlySorted(deferred)
    && Shared(inv.eligible, registered, pending, deferred)
    && (forall d :: d in registered ==> FileHolds(tree, d))
    && L.Meets(LedgerOf(tree), Wanted(tree, Sorted(registered), hash))
  }

  lemma {:induction false} WalkIsExact(files: seq<string>, expected: map<string, string>, others: set<string>)
    ensures WalkProblems(files, expected, others) == []
            <==> forall f :: f in files ==> f == LEDGER || f in expected
  {
    if files != [] {
      var n := |files| - 1;
      WalkIsExact(files[..n], expected, others);
      assert files == files[..n] + [files[n]];
    }
  }

  lemma {:induction false} RolledIsExact(roll: Roll, listed: seq<string>, eligible: seq<string>,
                                         registered: set<string>)
    ensures AllRolled(roll, listed, eligible, registered) == []
            <==> forall d :: d in listed ==> d in eligible && d !in registered
  {
    if listed != [] {
      var n := |listed| - 1;
      RolledIsExact(roll, listed[..n], eligible, registered);
      assert listed == listed[..n] + [listed[n]];
    }
  }

  lemma RollIsExact(roll: Roll, listed: seq<string>, eligible: seq<string>, registered: set<string>)
    ensures RollProblems(roll, listed, eligible, registered) == []
            <==> StrictlySorted(listed) && forall d :: d in listed ==> d in eligible && d !in registered
  {
    hide StrictlySorted, AllRolled;
    RolledIsExact(roll, listed, eligible, registered);
  }

  lemma {:induction false} FilesAreExact(tree: Tree, documents: seq<string>)
    ensures AllFiles(tree, documents) == [] <==> forall d :: d in documents ==> FileHolds(tree, d)
  {
    hide OneFile, FileHolds;
    if documents != [] {
      var n := |documents| - 1;
      FilesAreExact(tree, documents[..n]);
      assert documents == documents[..n] + [documents[n]];
      OneIsExact(tree, documents[n]);
    }
  }

  lemma OneIsExact(tree: Tree, document: string)
    ensures OneFile(tree, document) == [] <==> FileHolds(tree, document)
  {
    hide FileProblems, AllAcceptable, NoneTwice, Bag, Texts;
    FileIsExact(tree.file(RegistryPath(document)), document, tree.page(document), tree.bad(document));
  }

  lemma NoneIsLeft(inv: Inventory, registered: set<string>, pending: seq<string>, deferred: seq<string>)
    ensures Nowhere(Sorted(Left(inv, registered, pending, deferred))) == []
            <==> forall d :: d in inv.eligible ==> d in registered || d in pending || d in deferred
  {
    hide Sorted, StrictlySorted;
    var left := Left(inv, registered, pending, deferred);
    assert |Nowhere(Sorted(left))| == |Sorted(left)|;
    Inhabited(Sorted(left));
    if Nowhere(Sorted(left)) == [] {
      forall d | d in inv.eligible
        ensures d in registered || d in pending || d in deferred
      {
        assert d !in left by { assert d !in Sorted(left); }
      }
    }
  }

  lemma NoneInBoth(pending: seq<string>, deferred: seq<string>)
    ensures ToSet(pending) * ToSet(deferred) == {} <==> forall d :: !(d in pending && d in deferred)
  {
    if ToSet(pending) * ToSet(deferred) == {} {
      forall d ensures !(d in pending && d in deferred) {
        assert d !in ToSet(pending) * ToSet(deferred);
      }
    }
  }

  /** Nothing is reported exactly when each eligible document is registered, pending or deferred
      and in one way only, both lists are sorted, every file has its place, every registry agrees
      with its page, and the ledger is what all registries together want. */
  lemma GateIsExact(inv: Inventory, tree: Tree, pending: seq<string>, deferred: seq<string>, hash: string -> string)
    ensures GateHolds(inv, tree, pending, deferred, hash)
            <==> GateProblems(inv, tree, pending, deferred) == []
                 && L.Meets(LedgerOf(tree), Wanted(tree, WithRegistry(inv, tree), hash))
  {
    hide Expected, Registered, WalkProblems, RollProblems, AllFiles, Wanted, Sorted, StrictlySorted, L.Meets;
    hide FileHolds, Nowhere, Left;
    var expected := Expected(inv.eligible);
    var registered := Registered(tree.files, expected);
    RegisteredAreEligible(inv, tree);
    WalkIsExact(tree.files, expected, inv.others);
    NoneInBoth(pending, deferred);
    RollIsExact(PENDING, pending, inv.eligible, registered);
    RollIsExact(DEFERRED, deferred, inv.eligible, registered);
    NoneIsLeft(inv, registered, pending, deferred);
    FilesAreExact(tree, Sorted(registered));
  }

  /** The documents with a registry, sorted. */
  function WithRegistry(inv: Inventory, tree: Tree): seq<string> {
    Sorted(Registered(tree.files, Expected(inv.eligible)))
  }

  lemma RegisteredAreEligible(inv: Inventory, tree: Tree)
    ensures forall d :: d in Registered(tree.files, Expected(inv.eligible)) ==> d in inv.eligible
  {
    hide Expected;
  }

  lemma {:induction false} WantedHas(tree: Tree, documents: seq<string>, hash: string -> string, l: L.Line)
    ensures l in Wanted(tree, documents, hash)
            <==> exists d :: d in documents && l in WantOf(EntriesOf(tree, d), d, hash)
  {
    hide WantOf, EntriesOf;
    if documents != [] {
      var n := |documents| - 1;
      WantedHas(tree, documents[..n], hash, l);
      assert documents == documents[..n] + [documents[n]];
    }
  }

  lemma WantedArePlain(inv: Inventory, tree: Tree, hash: string -> string)
    requires Writable(inv.eligible, hash)
    ensures forall l :: l in Wanted(tree, WithRegistry(inv, tree), hash) ==> L.Plain(l)
  {
    hide Expected, Registered, Wanted, EntriesOf, WantOf, L.Plain, L.IsHash, StrictlySorted, Sorted;
    RegisteredAreEligible(inv, tree);
    var documents := WithRegistry(inv, tree);
    forall l | l in Wanted(tree, documents, hash)
      ensures L.Plain(l)
    {
      WantedHas(tree, documents, hash, l);
      var d :| d in documents && l in WantOf(EntriesOf(tree, d), d, hash);
      WantedIsPlain(EntriesOf(tree, d), d, hash, l);
    }
  }
}
