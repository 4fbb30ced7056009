/** Which problems the verdict on a run reports, each by what it means. */
module JudgeReports {
  import opened Wrappers
  import opened Stream
  import opened Matching
  import opened Judge
  import Text

  /** The block at `i` reached its end, as did all above it. */
  predicate AllReached(outs: seq<Outcome>, i: int) {
    forall j :: 0 <= j <= i && j < |outs| ==> outs[j].reached
  }

  predicate RanStrict(o: Outcome) {
    'e' in o.flags && 'u' in o.flags && o.pipefail == "pf"
  }

  /** The first expectation that cannot be placed after those before it. */
  ghost predicate FailsFirst(text: string, expects: seq<string>, n: nat) {
    n < |expects| && Placeable(text, expects[..n], 0, true) && !Placeable(text, expects[..n + 1], 0, true)
  }

  /** A reached block's problems. */
  ghost predicate BlockHas(i: nat, b: Block, o: Outcome, starts: set<string>, p: Problem) {
    match p
    case Exited(k) => k == i && o.rc != Some(0)
    case NotStrict(k) => k == i && o.rc == Some(0) && !RanStrict(o)
    case NotFound(k, n) => k == i && o.rc == Some(0) && RanStrict(o) && FailsFirst(o.stdout, b.expects, n)
    case Unexpected(k) =>
      k == i && o.rc == Some(0) && RanStrict(o)
      && Text.Strip(o.stdout) != "" && b.expects == [] && Text.Strip(b.body) !in starts
    case _ => false
  }

  lemma FailsIs(text: string, expects: seq<string>, n: nat)
    requires forall e :: e in expects ==> e != ""
    ensures FailsFirst(text, expects, n) <==> MissingFrom(text, expects, 0) == Some(n)
  {
    hide Placeable;
    NothingToPlace(text, 0, true);
    assert expects[..0] == [];
    if FailsFirst(text, expects, n) {
      MissingIs(text, expects, 0, n);
    }
    if MissingFrom(text, expects, 0) == Some(n) {
      MissingFails(text, expects, 0);
    }
  }

  lemma {:induction false} MissingFails(text: string, expects: seq<string>, k: nat)
    requires k <= |expects| && Placeable(text, expects[..k], 0, true) && MissingFrom(text, expects, k).Some?
    ensures FailsFirst(text, expects, MissingFrom(text, expects, k).value)
    decreases |expects| - k
  {
    hide Placeable;
    if k < |expects| && Placeable(text, expects[..k + 1], 0, true) {
      MissingFails(text, expects, k + 1);
    }
  }

  lemma OfBlockIs(i: nat, b: Block, o: Outcome, starts: set<string>, p: Problem)
    requires forall e :: e in b.expects ==> e != ""
    ensures p in OfBlock(i, b, o, starts) <==> BlockHas(i, b, o, starts, p)
  {
    hide Placeable, MissingFrom, FailsFirst;
    forall n: nat ensures FailsFirst(o.stdout, b.expects, n) <==> MissingFrom(o.stdout, b.expects, 0) == Some(n) {
      FailsIs(o.stdout, b.expects, n);
    }
  }

  lemma {:induction false} OfBlocksAre(blocks: seq<Block>, outs: seq<Outcome>, starts: set<string>, k: nat, p: Problem)
    requires k <= |blocks| && k <= |outs| && forall b, e :: b in blocks && e in b.expects ==> e != ""
    ensures p in OfBlocks(blocks, outs, starts, k)
            <==> exists i :: 0 <= i < k && BlockHas(i, blocks[i], outs[i], starts, p)
  {
    hide OfBlock, BlockHas;
    if k > 0 {
      OfBlocksAre(blocks, outs, starts, k - 1, p);
      assert blocks[k - 1] in blocks;
      OfBlockIs(k - 1, blocks[k - 1], outs[k - 1], starts, p);
    }
  }

  function ReachedBlocks(outs: seq<Outcome>): set<nat> {
    set i: nat | i < |outs| && outs[i].reached
  }

  lemma {:induction false} ReachedCounts(outs: seq<Outcome>)
    ensures Reached(outs) == |ReachedBlocks(outs)|
  {
    if outs != [] {
      var n := |outs| - 1;
      ReachedCounts(outs[..n]);
      var before := ReachedBlocks(outs[..n]);
      assert ReachedBlocks(outs) == before + if outs[n].reached then {n} else {};
    }
  }

  /** Line breaks and all: whether a text says what broke the run. */
  predicate Says(problem: Option<string>, text: string) {
    problem == Some(text) && text != ""
  }

  /** Block `i` is the first that did not reach its end. */
  predicate StopsAt(blocks: seq<Block>, outs: seq<Outcome>, i: nat) {
    i < |blocks| && i < |outs| && !outs[i].reached && forall j :: 0 <= j < i ==> outs[j].reached
  }

  /** A block above the first one that did not reach its end has the problem. */
  ghost predicate SomeBlockHas(blocks: seq<Block>, outs: seq<Outcome>, starts: set<string>, p: Problem) {
    exists i :: 0 <= i < |blocks| && i < |outs| && AllReached(outs, i) && BlockHas(i, blocks[i], outs[i], starts, p)
  }

  /** What the verdict reports: of the blocks above the first that did not reach its end, each by its
      own tests; that block, with the reason and the count; and, where there is no other problem, what
      broke the run or bash's own status. */
  ghost predicate Reports(blocks: seq<Block>, outs: seq<Outcome>, problem: Option<string>, rc: int,
                          starts: set<string>, p: Problem) {
    match p
    case NotReached(i, why) =>
      StopsAt(blocks, outs, i) && if IsSaid(problem) then why == Broken(problem.value) else why == BashStatus(rc)
    case Executed(reached, total, first) =>
      StopsAt(blocks, outs, first) && total == |blocks| && reached == |ReachedBlocks(outs)|
    case RunBroken(text) =>
      Says(problem, text) && (forall i: nat :: !StopsAt(blocks, outs, i))
      && forall q :: !SomeBlockHas(blocks, outs, starts, q)
    case BashExited(status) =>
      status == rc != 0 && !IsSaid(problem) && (forall i: nat :: !StopsAt(blocks, outs, i))
      && forall q :: !SomeBlockHas(blocks, outs, starts, q)
    case _ => SomeBlockHas(blocks, outs, starts, p)
  }

  predicate IsSaid(problem: Option<string>) {
    problem.Some? && problem.value != ""
  }

  lemma StopIs(blocks: seq<Block>, outs: seq<Outcome>, i: nat)
    ensures var n := Paired(blocks, outs);
            StopsAt(blocks, outs, i) <==> FirstUnreached(outs, 0, n) == i && i < n
  {
    hide FirstUnreached;
  }

  lemma SomeBlockIs(blocks: seq<Block>, outs: seq<Outcome>, starts: set<string>, p: Problem)
    requires forall b, e :: b in blocks && e in b.expects ==> e != ""
    ensures var f := FirstUnreached(outs, 0, Paired(blocks, outs));
            p in OfBlocks(blocks, outs, starts, f) <==> SomeBlockHas(blocks, outs, starts, p)
  {
    hide BlockHas, OfBlocks;
    var f := FirstUnreached(outs, 0, Paired(blocks, outs));
    OfBlocksAre(blocks, outs, starts, f, p);
    if SomeBlockHas(blocks, outs, starts, p) {
      var i :| 0 <= i < |blocks| && i < |outs| && AllReached(outs, i) && BlockHas(i, blocks[i], outs[i], starts, p);
      assert i < f;
    }
    if exists i :: 0 <= i < f && BlockHas(i, blocks[i], outs[i], starts, p) {
      var i :| 0 <= i < f && BlockHas(i, blocks[i], outs[i], starts, p);
      assert AllReached(outs, i);
    }
  }

  lemma NoneFound(found: seq<Problem>)
    ensures found == [] <==> forall p :: p !in found
  {
    assert found != [] ==> found[0] in found;
  }

  /** Of a block's problems none is about the whole run. */
  lemma OwnKinds(blocks: seq<Block>, outs: seq<Outcome>, starts: set<string>, p: Problem)
    requires SomeBlockHas(blocks, outs, starts, p)
    ensures p.Exited? || p.NotStrict? || p.NotFound? || p.Unexpected?
  {
  }

  /** A problem is reported exactly when the run has it. */
  lemma ReportedIs(blocks: seq<Block>, outs: seq<Outcome>, problem: Option<string>, rc: int, starts: set<string>,
                   p: Problem)
    requires forall b, e :: b in blocks && e in b.expects ==> e != ""
    ensures p in ProblemsOf(blocks, outs, problem, rc, starts) <==> Reports(blocks, outs, problem, rc, starts, p)
  {
    hide SomeBlockHas, OfBlocks, StopsAt, FirstUnreached, Reached, ReachedBlocks;
    var n := Paired(blocks, outs);
    var f := FirstUnreached(outs, 0, n);
    var found := OfBlocks(blocks, outs, starts, f);
    forall q ensures q in found <==> SomeBlockHas(blocks, outs, starts, q) {
      SomeBlockIs(blocks, outs, starts, q);
    }
    forall i: nat ensures StopsAt(blocks, outs, i) <==> FirstUnreached(outs, 0, n) == i && i < n {
      StopIs(blocks, outs, i);
    }
    assert StopsAt(blocks, outs, f) <==> f < n;
    ReachedCounts(outs);
    NoneFound(found);
    if SomeBlockHas(blocks, outs, starts, p) {
      OwnKinds(blocks, outs, starts, p);
    }
  }
}
