/** What the plan of `doc_examples.py` keeps: the hands share out the running pages of each
    profile without loss or repetition, and none is empty, too large or uneven. */
module PlanFacts {
  import opened Shards

  // --- Round-robin dealing ---

  /** `Stride` takes every `step`-th element, and all of them. */
  lemma {:induction false} StrideAt(s: seq<string>, start: nat, step: nat, j: nat)
    requires step > 0
    ensures j < |Stride(s, start, step)| <==> start + j * step < |s|
    ensures j < |Stride(s, start, step)| ==> Stride(s, start, step)[j] == s[start + j * step]
    decreases j
  {
    if j == 0 {
    } else if start < |s| {
      StrideAt(s, start + step, step, j - 1);
      assert start + step + (j - 1) * step == start + j * step;
    } else {
      assert start + j * step >= |s|;
    }
  }

  lemma {:induction false} StrideShifts(s: seq<string>, start: nat, step: nat)
    requires step > 0 && s != []
    ensures Stride(s, start + 1, step) == Stride(s[1..], start, step)
    decreases |s| - start
  {
    if start + 1 < |s| {
      StrideShifts(s, start + step, step);
    }
  }

  /** All pages of a plan, as often as they are in it. */
  function Bag(plan: Plan): multiset<string> {
    if plan == [] then multiset{} else Bag(plan[..|plan| - 1]) + multiset(plan[|plan| - 1].1)
  }

  lemma {:induction false} BagAppend(a: Plan, b: Plan)
    ensures Bag(a + b) == Bag(a) + Bag(b)
  {
    if b == [] {
      assert a + b == a;
    } else {
      var n := |b| - 1;
      assert (a + b)[..|a| + n] == a + b[..n];
      BagAppend(a, b[..n]);
    }
  }

  /** The first `upTo` hands of a deal to `n`. */
  function Hands(s: seq<string>, n: nat, upTo: nat): multiset<string>
    requires n > 0
  {
    if upTo == 0 then multiset{} else Hands(s, n, upTo - 1) + multiset(Stride(s, upTo - 1, n))
  }

  lemma {:induction false} HandsShift(s: seq<string>, n: nat, upTo: nat)
    requires n > 0 && upTo > 0 && s != []
    ensures Hands(s, n, upTo) == multiset(Stride(s, 0, n)) + Hands(s[1..], n, upTo - 1)
  {
    hide Stride;
    if upTo == 1 {
      assert Hands(s, n, 0) == multiset{};
    } else {
      HandsShift(s, n, upTo - 1);
      StrideShifts(s, upTo - 2, n);
      Regroup(multiset(Stride(s, 0, n)), Hands(s[1..], n, upTo - 2), multiset(Stride(s, upTo - 1, n)));
    }
  }

  lemma Regroup(a: multiset<string>, b: multiset<string>, c: multiset<string>)
    ensures (a + b) + c == a + (b + c)
    ensures (a + b) + c == a + (c + b)
  {
  }

  /** A deal to `n` hands gives out every card once. */
  lemma {:induction false} DealIsComplete(s: seq<string>, n: nat)
    requires n > 0
    ensures Hands(s, n, n) == multiset(s)
    decreases |s|
  {
    hide Stride;
    if s == [] {
      NothingDealt(n, n);
    } else {
      HandsShift(s, n, n);
      FirstHand(s, n);
      DealIsComplete(s[1..], n);
      LastHand(s[1..], n);
      Regroup(multiset{s[0]}, multiset(Stride(s[1..], n - 1, n)), Hands(s[1..], n, n - 1));
      assert s == [s[0]] + s[1..];
    }
  }

  lemma FirstHand(s: seq<string>, n: nat)
    requires n > 0 && s != []
    ensures multiset(Stride(s, 0, n)) == multiset{s[0]} + multiset(Stride(s[1..], n - 1, n))
  {
    StrideShifts(s, n - 1, n);
    assert Stride(s, 0, n) == [s[0]] + Stride(s[1..], n - 1, n);
  }

  lemma LastHand(s: seq<string>, n: nat)
    requires n > 0
    ensures Hands(s, n, n) == Hands(s, n, n - 1) + multiset(Stride(s, n - 1, n))
  {
  }

  lemma {:induction false} NothingDealt(n: nat, upTo: nat)
    requires n > 0
    ensures Hands([], n, upTo) == multiset{}
  {
    if upTo > 0 {
      NothingDealt(n, upTo - 1);
    }
  }

  lemma {:induction false} DealtBag(profile: string, pages: seq<string>, n: nat, upTo: nat)
    requires 0 < n && upTo <= n
    ensures Bag(Dealt(profile, pages, n, upTo)) == Hands(pages, n, upTo)
  {
    if upTo > 0 {
      DealtBag(profile, pages, n, upTo - 1);
      var plan := Dealt(profile, pages, n, upTo);
      assert plan[..|plan| - 1] == Dealt(profile, pages, n, upTo - 1);
    }
  }

  lemma {:induction false} DealtAt(profile: string, pages: seq<string>, n: nat, upTo: nat, i: nat)
    requires upTo <= n && i < upTo
    ensures |Dealt(profile, pages, n, upTo)| == upTo
    ensures Dealt(profile, pages, n, upTo)[i] == (Shard(profile, i + 1, n), Stride(pages, i, n))
  {
    DealtLength(profile, pages, n, upTo);
    if i < upTo - 1 {
      DealtAt(profile, pages, n, upTo - 1, i);
    } else {
      DealtLength(profile, pages, n, upTo - 1);
    }
  }

  lemma {:induction false} DealtLength(profile: string, pages: seq<string>, n: nat, upTo: nat)
    requires upTo <= n
    ensures |Dealt(profile, pages, n, upTo)| == upTo
  {
    if upTo > 0 {
      DealtLength(profile, pages, n, upTo - 1);
    }
  }

  // --- Pages ---

  /** The pages that run, and with `profile` only that profile's. */
  function RunBag(docs: seq<Doc>, profiles: seq<string>): multiset<string> {
    if docs == [] then multiset{}
    else RunBag(docs[..|docs| - 1], profiles) + One(docs[|docs| - 1], profiles)
  }

  function One(doc: Doc, profiles: seq<string>): multiset<string> {
    if Runs(doc) && ProfileOf(doc) in profiles then multiset{doc.path} else multiset{}
  }

  lemma {:induction false} RunBagAppend(docs: seq<Doc>, doc: Doc, profiles: seq<string>)
    ensures RunBag(docs + [doc], profiles) == RunBag(docs, profiles) + One(doc, profiles)
  {
    assert (docs + [doc])[..|docs|] == docs;
  }

  lemma {:induction false} InsertKeepsRunBag(doc: Doc, docs: seq<Doc>, profiles: seq<string>)
    requires InPathOrder(docs)
    ensures RunBag(InsertDoc(doc, docs), profiles) == RunBag(docs, profiles) + One(doc, profiles)
  {
    hide One, InPathOrder;
    if docs == [] {
      RunBagAppend([], doc, profiles);
      assert [] + [doc] == [doc];
    } else {
      var n := |docs| - 1;
      assert docs == docs[..n] + [docs[n]];
      RunBagAppend(docs, doc, profiles);
      RunBagAppend(docs[..n], docs[n], profiles);
      InPrefix(docs, n);
      InsertKeepsRunBag(doc, docs[..n], profiles);
      RunBagAppend(InsertDoc(doc, docs[..n]), docs[n], profiles);
    }
  }

  lemma InPrefix(docs: seq<Doc>, n: nat)
    requires InPathOrder(docs) && n <= |docs|
    ensures InPathOrder(docs[..n])
  {
  }

  lemma {:induction false} SortKeepsRunBag(docs: seq<Doc>, profiles: seq<string>)
    ensures RunBag(SortedDocs(docs), profiles) == RunBag(docs, profiles)
  {
    hide One, InPathOrder;
    if docs != [] {
      var n := |docs| - 1;
      assert docs == docs[..n] + [docs[n]];
      SortKeepsRunBag(docs[..n], profiles);
      InsertKeepsRunBag(docs[n], SortedDocs(docs[..n]), profiles);
      RunBagAppend(docs[..n], docs[n], profiles);
    }
  }

  lemma {:induction false} PagesBag(docs: seq<Doc>, profile: string)
    ensures multiset(PagesOf(docs, profile)) == RunBag(docs, [profile])
  {
    hide ProfileOf;
    if docs != [] {
      PagesBag(docs[..|docs| - 1], profile);
    }
  }

  lemma {:induction false} RunBagSplits(docs: seq<Doc>, profiles: seq<string>, profile: string)
    requires profile !in profiles
    ensures RunBag(docs, profiles + [profile]) == RunBag(docs, profiles) + RunBag(docs, [profile])
  {
    hide ProfileOf;
    if docs != [] {
      RunBagSplits(docs[..|docs| - 1], profiles, profile);
    }
  }

  lemma ProfilePlanBag(docs: seq<Doc>, profile: string)
    ensures Bag(ProfilePlan(docs, profile)) == RunBag(docs, [profile])
  {
    hide SortedDocs, PagesOf, RunBag, Bag, Dealt, Hands;
    var pages := PagesOf(SortedDocs(docs), profile);
    var n := CeilDiv(|pages|, PAGES_PER_SHARD);
    PagesBag(SortedDocs(docs), profile);
    SortKeepsRunBag(docs, [profile]);
    if n > 0 {
      DealtBag(profile, pages, n, n);
      DealIsComplete(pages, n);
    } else {
      EmptyDeal(profile, pages);
      assert pages == [];
    }
  }

  lemma EmptyDeal(profile: string, pages: seq<string>)
    ensures Bag(Dealt(profile, pages, 0, 0)) == multiset{}
  {
  }

  /** Every page that runs is in the plan exactly as often as it is enrolled. */
  lemma PlanIsComplete(docs: seq<Doc>)
    ensures Bag(PlanOf(docs)) == RunBag(docs, PROFILES)
  {
    hide RunBag, PlanFor, Bag;
    NoProfiles(docs);
    ProfilesDiffer();
    PlanStep(docs, [], "core");
    assert [] + ["core"] == ["core"];
    PlanStep(docs, ["core"], "full");
    assert ["core"] + ["full"] == ["core", "full"];
    PlanStep(docs, ["core", "full"], "dev");
    assert ["core", "full"] + ["dev"] == PROFILES;
  }

  lemma ProfilesDiffer()
    ensures "full" !in ["core"] && "dev" !in ["core", "full"]
  {
    assert "full"[0] != "core"[0];
  }

  lemma {:induction false} NoProfiles(docs: seq<Doc>)
    ensures RunBag(docs, []) == multiset{} && Bag(PlanFor(docs, [])) == multiset{}
  {
    if docs != [] {
      NoProfiles(docs[..|docs| - 1]);
    }
  }

  lemma PlanStep(docs: seq<Doc>, profiles: seq<string>, profile: string)
    requires profile !in profiles && Bag(PlanFor(docs, profiles)) == RunBag(docs, profiles)
    ensures Bag(PlanFor(docs, profiles + [profile])) == RunBag(docs, profiles + [profile])
  {
    hide RunBag, ProfilePlan;
    assert (profiles + [profile])[..|profiles|] == profiles;
    BagAppend(PlanFor(docs, profiles), ProfilePlan(docs, profile));
    ProfilePlanBag(docs, profile);
    RunBagSplits(docs, profiles, profile);
  }

  // --- The shards ---

  /** A shard of the plan: which one of its profile, and the pages it was dealt. */
  predicate IsDealt(docs: seq<Doc>, entry: (Shard, seq<string>)) {
    var (shard, own) := entry;
    var pages := PagesOf(SortedDocs(docs), shard.profile);
    && shard.profile in PROFILES
    && shard.n == CeilDiv(|pages|, PAGES_PER_SHARD) && 1 <= shard.k <= shard.n
    && own == Stride(pages, shard.k - 1, shard.n)
  }

  lemma {:induction false} PlanForHolds(docs: seq<Doc>, profiles: seq<string>, entry: (Shard, seq<string>))
    requires forall p :: p in profiles ==> p in PROFILES
    ensures entry in PlanFor(docs, profiles) <==> IsDealt(docs, entry) && entry.0.profile in profiles
  {
    hide SortedDocs, PagesOf, Stride, CeilDiv, Dealt;
    if profiles != [] {
      var m := |profiles| - 1;
      assert profiles == profiles[..m] + [profiles[m]];
      PlanForHolds(docs, profiles[..m], entry);
      ProfilePlanHolds(docs, profiles[m], entry);
    }
  }

  lemma ProfilePlanHolds(docs: seq<Doc>, profile: string, entry: (Shard, seq<string>))
    requires profile in PROFILES
    ensures entry in ProfilePlan(docs, profile) <==> IsDealt(docs, entry) && entry.0.profile == profile
  {
    hide SortedDocs, PagesOf, Stride, CeilDiv, Dealt;
    var pages := PagesOf(SortedDocs(docs), profile);
    var n := CeilDiv(|pages|, PAGES_PER_SHARD);
    var plan := ProfilePlan(docs, profile);
    DealtLength(profile, pages, n, n);
    if entry in plan {
      var i :| 0 <= i < |plan| && plan[i] == entry;
      DealtAt(profile, pages, n, n, i);
    }
    if IsDealt(docs, entry) && entry.0.profile == profile {
      DealtAt(profile, pages, n, n, entry.0.k - 1);
      assert plan[entry.0.k - 1] == entry;
    }
  }

  /** Exactly the shards 1 to n of each profile are planned, each with its own hand. */
  lemma PlanHolds(docs: seq<Doc>, entry: (Shard, seq<string>))
    ensures entry in PlanOf(docs) <==> IsDealt(docs, entry)
  {
    PlanForHolds(docs, PROFILES, entry);
  }

  /** A shard is planned exactly when it is one of those. */
  lemma PlannedAre(docs: seq<Doc>, shard: Shard)
    ensures InPlan(PlanOf(docs), shard) <==>
            && shard.profile in PROFILES
            && 1 <= shard.k <= shard.n == CeilDiv(|PagesOf(SortedDocs(docs), shard.profile)|, PAGES_PER_SHARD)
  {
    hide PlanOf, PagesOf, SortedDocs, CeilDiv, Stride;
    var plan, pages := PlanOf(docs), PagesOf(SortedDocs(docs), shard.profile);
    if InPlan(plan, shard) {
      var k :| 0 <= k < |plan| && plan[k].0 == shard;
      assert plan[k] in plan;
      PlanHolds(docs, plan[k]);
    }
    if shard.profile in PROFILES && 1 <= shard.k <= shard.n == CeilDiv(|pages|, PAGES_PER_SHARD) {
      var entry := (shard, Stride(pages, shard.k - 1, shard.n));
      PlanHolds(docs, entry);
      assert entry in plan;
    }
  }

  lemma {:induction false} PagesAreRunning(docs: seq<Doc>, profile: string, page: string)
    ensures page in PagesOf(docs, profile) <==>
            exists d :: d in docs && Runs(d) && ProfileOf(d) == profile && d.path == page
  {
    hide ProfileOf;
    if docs != [] {
      var n := |docs| - 1;
      PagesAreRunning(docs[..n], profile, page);
      assert docs == docs[..n] + [docs[n]];
    }
  }

  lemma SortKeepsDocs(docs: seq<Doc>, d: Doc)
    ensures d in SortedDocs(docs) <==> d in docs
  {
    assert d in SortedDocs(docs) <==> d in multiset(SortedDocs(docs));
    assert d in docs <==> d in multiset(docs);
  }

  /** The pages of a shard run, and need what its profile gives. */
  lemma ShardPagesRun(docs: seq<Doc>, entry: (Shard, seq<string>), page: string)
    requires entry in PlanOf(docs) && page in entry.1
    ensures exists d :: d in docs && Runs(d) && ProfileOf(d) == entry.0.profile && d.path == page
  {
    hide PlanOf, ProfileOf, Runs, SortedDocs, PagesOf, Stride, CeilDiv;
    PlanHolds(docs, entry);
    var (shard, own) := entry;
    var sorted := SortedDocs(docs);
    var pages := PagesOf(sorted, shard.profile);
    var j :| 0 <= j < |own| && own[j] == page;
    StrideAt(pages, shard.k - 1, shard.n, j);
    assert page in pages;
    PagesAreRunning(sorted, shard.profile, page);
    var d :| d in sorted && Runs(d) && ProfileOf(d) == shard.profile && d.path == page;
    SortKeepsDocs(docs, d);
  }

  /** A shard holds at least one page and at most PAGES_PER_SHARD. */
  lemma ShardSize(docs: seq<Doc>, entry: (Shard, seq<string>))
    requires entry in PlanOf(docs)
    ensures 1 <= |entry.1| <= PAGES_PER_SHARD
  {
    hide PlanOf, SortedDocs, PagesOf, Stride, CeilDiv;
    PlanHolds(docs, entry);
    var (shard, own) := entry;
    StrideSize(PagesOf(SortedDocs(docs), shard.profile), shard.k, shard.n);
  }

  lemma StrideSize(pages: seq<string>, k: nat, n: nat)
    requires n == CeilDiv(|pages|, PAGES_PER_SHARD) && 1 <= k <= n
    ensures 1 <= |Stride(pages, k - 1, n)| <= PAGES_PER_SHARD
  {
    hide Stride;
    StrideAt(pages, k - 1, n, 0);
    StrideAt(pages, k - 1, n, PAGES_PER_SHARD);
  }

  /** Shards of one profile differ by at most one page. */
  lemma ShardsAreEven(docs: seq<Doc>, a: (Shard, seq<string>), b: (Shard, seq<string>))
    requires a in PlanOf(docs) && b in PlanOf(docs) && a.0.profile == b.0.profile
    ensures |a.1| <= |b.1| + 1
  {
    hide PlanOf, SortedDocs, PagesOf, Stride, CeilDiv;
    PlanHolds(docs, a);
    PlanHolds(docs, b);
    var pages := PagesOf(SortedDocs(docs), a.0.profile);
    var n, m := a.0.n, |b.1|;
    StrideAt(pages, b.0.k - 1, n, m);
    StrideAt(pages, a.0.k - 1, n, m + 1);
    assert (m + 1) * n == m * n + n;
  }

  /** A shard has one hand, whichever entry of the plan names it. */
  lemma OneHandAShard(docs: seq<Doc>, a: (Shard, seq<string>), b: (Shard, seq<string>))
    requires a in PlanOf(docs) && b in PlanOf(docs) && a.0 == b.0
    ensures a.1 == b.1
  {
    hide PlanOf;
    PlanHolds(docs, a);
    PlanHolds(docs, b);
  }

  /** The pages of a shard are those of its profile by what their stack needs: the full image, a
      development server, or neither. */
  lemma ProfilesAre(docs: seq<Doc>, a: (Shard, seq<string>), page: string)
    requires a in PlanOf(docs) && page in a.1
    ensures exists d :: d in docs && d.path == page && d.exec > 0
              && (a.0.profile == "full" <==> d.environment == "stack-full")
              && (a.0.profile == "dev" <==> d.environment == "stack-dev")
              && (a.0.profile == "core" <==> d.environment != "stack-full" && d.environment != "stack-dev")
  {
    hide PlanOf;
    ShardPagesRun(docs, a, page);
  }
}
