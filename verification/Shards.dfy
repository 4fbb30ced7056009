/** The shards of `doc_examples.py`: their labels and the plan that deals pages to them. */
module Shards {
  import opened Text
  import opened Wrappers
  import opened Numbers
  import opened Ordering

  /** `k` of `n`, counted from 1, for the pages of one profile. */
  datatype Shard = Shard(profile: string, k: nat, n: nat)

  const PROFILES := ["core", "full", "dev"]
  const PAGE_SECONDS := 80
  const SHARD_BUDGET_SECONDS := 480
  const PAGES_PER_SHARD := SHARD_BUDGET_SECONDS / PAGE_SECONDS

  // --- Labels ---

  function Label(s: Shard): string {
    s.profile + ":" + Digits(s.k) + "/" + Digits(s.n)
  }

  /** One to three digits, the first not 0. */
  predicate IsCount(s: string) {
    1 <= |s| <= 3 && AllDigits(s) && s[0] != '0'
  }

  /** The text, without the one line break `$` may match before. */
  function Chomp(text: string): string {
    if text != "" && text[|text| - 1] == '\n' then text[..|text| - 1] else text
  }

  function ParseShard(text: string): Option<Shard> {
    var parts := Split(Chomp(text), ':');
    if |parts| != 2 || parts[0] !in PROFILES then None
    else
      var numbers := Split(parts[1], '/');
      if |numbers| != 2 || !IsCount(numbers[0]) || !IsCount(numbers[1]) then None
      else
        var k, n := Value(numbers[0]), Value(numbers[1]);
        if k > n then None else Some(Shard(parts[0], k, n))
  }

  predicate ValidShard(s: Shard) {
    s.profile in PROFILES && 1 <= s.k <= s.n <= 999
  }

  lemma NumeralIsClean(n: nat, c: char)
    requires !IsDigit(c)
    ensures c !in Digits(n)
  {
  }

  lemma ProfileIsClean(profile: string)
    requires profile in PROFILES
    ensures ':' !in profile && '\n' !in profile
  {
  }

  /** A label splits into what it was made of. */
  lemma LabelSplits(s: Shard)
    requires s.profile in PROFILES
    ensures Split(Label(s), ':') == [s.profile, Digits(s.k) + "/" + Digits(s.n)]
    ensures Split(Digits(s.k) + "/" + Digits(s.n), '/') == [Digits(s.k), Digits(s.n)]
    ensures Chomp(Label(s)) == Label(s) && Chomp(Label(s) + "\n") == Label(s)
  {
    hide Digits, Split;
    var k, n := Digits(s.k), Digits(s.n);
    var numbers := k + "/" + n;
    NumeralIsClean(s.k, ':'); NumeralIsClean(s.n, ':');
    NumeralIsClean(s.k, '/'); NumeralIsClean(s.n, '/');
    NumeralIsClean(s.n, '\n');
    ProfileIsClean(s.profile);
    assert ':' !in numbers;
    assert Label(s) == s.profile + [':'] + numbers;
    SplitHead(s.profile, numbers, ':');
    SplitWhole(numbers, ':');
    SplitHead(k, n, '/');
    SplitWhole(n, '/');
    assert Label(s)[|Label(s)| - 1] == n[|n| - 1];
    assert (Label(s) + "\n")[..|Label(s)|] == Label(s);
  }

  lemma CountOf(n: nat)
    requires n > 0
    ensures IsCount(Digits(n)) <==> n <= 999
  {
    DigitsLength(n);
  }

  /** Reading a label gives the shard it was made of, with or without a line break after
      it; for a count over 999 it gives nothing. */
  lemma ParseLabel(s: Shard)
    requires s.profile in PROFILES && 1 <= s.k <= s.n
    ensures ParseShard(Label(s)) == ParseShard(Label(s) + "\n") == if s.n <= 999 then Some(s) else None
  {
    hide Digits, Split, Value, Label, IsCount;
    LabelSplits(s);
    CountOf(s.k);
    CountOf(s.n);
    ValueOfDigits(s.k);
    ValueOfDigits(s.n);
  }

  /** Only labels are read: what is read back is the text, up to one final line break. */
  lemma LabelOfParsed(text: string)
    requires ParseShard(text).Some?
    ensures var s := ParseShard(text).value;
            ValidShard(s) && (text == Label(s) || text == Label(s) + "\n")
  {
    hide Digits, Split, Value;
    var body := Chomp(text);
    var parts := Split(body, ':');
    var numbers := Split(parts[1], '/');
    DigitsOfValue(numbers[0]);
    DigitsOfValue(numbers[1]);
    CountOf(Value(numbers[0]));
    CountOf(Value(numbers[1]));
    JoinSplit(parts[1], '/');
    JoinsTwo(numbers[0], numbers[1], '/');
    assert numbers == [numbers[0], numbers[1]];
    JoinSplit(body, ':');
    JoinsTwo(parts[0], parts[1], ':');
    assert parts == [parts[0], parts[1]];
    var s := ParseShard(text).value;
    assert body == Label(s) by {
      assert s.profile + ":" + (numbers[0] + "/" + numbers[1]) == s.profile + ":" + numbers[0] + "/" + numbers[1];
    }
  }

  lemma JoinsTwo(a: string, b: string, separator: char)
    ensures Join([a, b], separator) == a + [separator] + b
  {
    assert [a, b][1..] == [b];
  }

  // --- Documents ---

  datatype Doc = Doc(path: string, environment: string, exec: nat)

  /** The enrolment: its documents and its declared total of exec blocks. */
  datatype Enrolment = Enrolment(documents: seq<Doc>, execTotal: nat)

  function ProfileOf(doc: Doc): (p: string)
    ensures p in PROFILES
  {
    if doc.environment == "stack-full" then PROFILES[1]
    else if doc.environment == "stack-dev" then PROFILES[2] else PROFILES[0]
  }

  predicate Runs(doc: Doc) {
    doc.exec > 0
  }

  function SumExec(docs: seq<Doc>): nat {
    if docs == [] then 0 else SumExec(docs[..|docs| - 1]) + docs[|docs| - 1].exec
  }

  predicate DistinctPaths(docs: seq<Doc>) {
    forall i, j :: 0 <= i < j < |docs| ==> docs[i].path != docs[j].path
  }

  /** What loading the enrolment accepts, of what is modelled here: no page is listed twice
      and the exec counts add up to the declared total. */
  predicate Loaded(e: Enrolment) {
    DistinctPaths(e.documents) && SumExec(e.documents) == e.execTotal
  }

  // --- The plan ---

  function CeilDiv(a: nat, b: nat): nat
    requires b > 0
  {
    (a + b - 1) / b
  }

  /** `s[start::step]`. */
  function Stride(s: seq<string>, start: nat, step: nat): seq<string>
    requires step > 0
    decreases |s| - start
  {
    if start >= |s| then [] else [s[start]] + Stride(s, start + step, step)
  }

  predicate InPathOrder(docs: seq<Doc>) {
    forall i, j :: 0 <= i < j < |docs| ==> AtMost(docs[i].path, docs[j].path)
  }

  function InsertDoc(doc: Doc, docs: seq<Doc>): (r: seq<Doc>)
    requires InPathOrder(docs)
    ensures InPathOrder(r) && multiset(r) == multiset(docs) + multiset{doc}
  {
    if docs == [] then [doc]
    else
      var n := |docs| - 1;
      assert docs == docs[..n] + [docs[n]];
      if AtMost(docs[n].path, doc.path) then
        AppendDoc(docs, doc);
        docs + [doc]
      else
        Total(docs[n].path, doc.path);
        var rest := InsertDoc(doc, docs[..n]);
        RestBelow(docs, doc, rest);
        AppendDoc(rest, docs[n]);
        rest + [docs[n]]
  }

  lemma AppendDoc(docs: seq<Doc>, doc: Doc)
    requires InPathOrder(docs) && (docs != [] ==> AtMost(docs[|docs| - 1].path, doc.path))
    ensures InPathOrder(docs + [doc])
  {
    forall i | 0 <= i < |docs|
      ensures AtMost(docs[i].path, doc.path)
    {
      if i < |docs| - 1 {
        Transitive(docs[i].path, docs[|docs| - 1].path, doc.path);
      }
    }
  }

  lemma RestBelow(docs: seq<Doc>, doc: Doc, rest: seq<Doc>)
    requires InPathOrder(docs) && docs != [] && AtMost(doc.path, docs[|docs| - 1].path)
    requires multiset(rest) == multiset(docs[..|docs| - 1]) + multiset{doc}
    ensures rest != [] ==> AtMost(rest[|rest| - 1].path, docs[|docs| - 1].path)
  {
    if rest != [] {
      var last := rest[|rest| - 1];
      assert last in multiset(rest);
      assert last == doc || last in docs[..|docs| - 1];
    }
  }

  /** `sorted(documents, key=path)`. */
  function SortedDocs(docs: seq<Doc>): (r: seq<Doc>)
    ensures InPathOrder(r) && multiset(r) == multiset(docs)
  {
    if docs == [] then []
    else
      assert docs == docs[..|docs| - 1] + [docs[|docs| - 1]];
      InsertDoc(docs[|docs| - 1], SortedDocs(docs[..|docs| - 1]))
  }

  /** The paths of a profile's pages that run, in the order given. */
  function PagesOf(docs: seq<Doc>, profile: string): seq<string> {
    if docs == [] then []
    else PagesOf(docs[..|docs| - 1], profile) +
         (if Runs(docs[|docs| - 1]) && ProfileOf(docs[|docs| - 1]) == profile then [docs[|docs| - 1].path] else [])
  }

  type Plan = seq<(Shard, seq<string>)>

  predicate InPlan(plan: Plan, shard: Shard) {
    exists k :: 0 <= k < |plan| && plan[k].0 == shard
  }

  /** The first `upTo` shards of a profile. */
  function Dealt(profile: string, pages: seq<string>, n: nat, upTo: nat): Plan
    requires upTo <= n
  {
    if upTo == 0 then []
    else Dealt(profile, pages, n, upTo - 1) + [(Shard(profile, upTo, n), Stride(pages, upTo - 1, n))]
  }

  function ProfilePlan(docs: seq<Doc>, profile: string): Plan {
    var pages := PagesOf(SortedDocs(docs), profile);
    var n := CeilDiv(|pages|, PAGES_PER_SHARD);
    Dealt(profile, pages, n, n)
  }

  function PlanFor(docs: seq<Doc>, profiles: seq<string>): Plan {
    if profiles == [] then []
    else PlanFor(docs, profiles[..|profiles| - 1]) + ProfilePlan(docs, profiles[|profiles| - 1])
  }

  function PlanOf(docs: seq<Doc>): Plan {
    PlanFor(docs, PROFILES)
  }

  method DealProfile(profile: string, pages: seq<string>) returns (plan: Plan)
    ensures var n := CeilDiv(|pages|, PAGES_PER_SHARD); plan == Dealt(profile, pages, n, n)
  {
    var n := CeilDiv(|pages|, PAGES_PER_SHARD);
    plan := [];
    for k := 1 to n + 1
      invariant plan == Dealt(profile, pages, n, k - 1)
    {
      plan := plan + [(Shard(profile, k, n), Stride(pages, k - 1, n))];
    }
  }

  /** Pages in path order, by profile. */
  method GroupByProfile(docs: seq<Doc>) returns (byProfile: map<string, seq<string>>)
    ensures forall p :: p in PROFILES ==> p in byProfile && byProfile[p] == PagesOf(SortedDocs(docs), p)
  {
    var sorted := SortedDocs(docs);
    byProfile := map p | p in PROFILES :: [];
    for i := 0 to |sorted|
      invariant forall p :: p in PROFILES ==> p in byProfile && byProfile[p] == PagesOf(sorted[..i], p)
    {
      assert sorted[..i + 1][..i] == sorted[..i];
      var doc := sorted[i];
      if Runs(doc) {
        byProfile := byProfile[ProfileOf(doc) := byProfile[ProfileOf(doc)] + [doc.path]];
      }
    }
    assert sorted[..|sorted|] == sorted;
  }

  /** Every page that runs, dealt round-robin within its profile. */
  method ShardPlan(docs: seq<Doc>) returns (plan: Plan)
    ensures plan == PlanOf(docs)
  {
    hide PagesOf, Dealt;
    var byProfile := GroupByProfile(docs);
    plan := [];
    for i := 0 to |PROFILES|
      invariant plan == PlanFor(docs, PROFILES[..i])
    {
      assert PROFILES[..i + 1][..i] == PROFILES[..i];
      assert PROFILES[i] in PROFILES;
      var dealt := DealProfile(PROFILES[i], byProfile[PROFILES[i]]);
      plan := plan + dealt;
    }
    assert PROFILES[..|PROFILES|] == PROFILES;
  }
}
