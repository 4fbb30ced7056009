/** The verdict on a page's run (`doc_examples.py`). */
module Judge {
  import opened Wrappers
  import opened Stream
  import opened StreamCuts
  import opened Matching
  import Text

  datatype Block = Block(body: string, expects: seq<string>)

  datatype Reason = Broken(problem: string) | BashStatus(rc: int)

  datatype Problem =
    | NotReached(block: nat, why: Reason)
    | Executed(reached: nat, total: nat, first: nat)
    | Exited(block: nat)
    | NotStrict(block: nat)
    | NotFound(block: nat, expectation: nat)
    | Unexpected(block: nat)
    | RunBroken(problem: string)
    | BashExited(rc: int)

  predicate IsStrict(o: Outcome) {
    'e' in o.flags && 'u' in o.flags && o.pipefail == "pf"
  }

  /** Output that no expectation of the block covers; the blocks that start the stack may print. */
  predicate IsUnexpected(b: Block, o: Outcome, starts: set<string>) {
    Text.Strip(o.stdout) != "" && b.expects == [] && Text.Strip(b.body) !in starts
  }

  /** A block that met the page: it ended with status zero, left strict mode on, and all its
      expectations stand in its output, in order and apart. */
  ghost predicate Meets(b: Block, o: Outcome, starts: set<string>) {
    o.reached && o.rc == Some(0) && IsStrict(o) && Placeable(o.stdout, b.expects, 0, true)
    && !IsUnexpected(b, o, starts)
  }

  /** The first expectation, counted from `k`, up to which they cannot all be placed. */
  ghost function MissingFrom(stdout: string, expects: seq<string>, k: nat): (m: Option<nat>)
    requires k <= |expects|
    ensures m.Some? ==> k <= m.value < |expects| && !Placeable(stdout, expects[..m.value + 1], 0, true)
    ensures m.None? && k < |expects| ==> Placeable(stdout, expects, 0, true)
    decreases |expects| - k
  {
    if k == |expects| then None
    else if !Placeable(stdout, expects[..k + 1], 0, true) then Some(k)
    else
      assert expects[..|expects|] == expects;
      MissingFrom(stdout, expects, k + 1)
  }

  lemma {:induction false} PlacedPrefix(text: string, patterns: seq<string>, start: nat, at: seq<nat>, k: nat)
    requires Placed(text, patterns, start, true, at) && k <= |patterns|
    ensures Placed(text, patterns[..k], start, true, at[..k])
    decreases |patterns|
  {
    hide MatchesAt;
    if k > 0 {
      PlacedPrefix(text, patterns[1..], at[0] + |patterns[0]|, at[1..], k - 1);
      assert patterns[..k][1..] == patterns[1..][..k - 1] && at[..k][1..] == at[1..][..k - 1];
    }
  }

  lemma PlaceablePrefix(text: string, patterns: seq<string>, j: nat, k: nat)
    requires j <= k <= |patterns| && Placeable(text, patterns[..k], 0, true)
    ensures Placeable(text, patterns[..j], 0, true)
  {
    hide MatchesAt;
    var at :| Placed(text, patterns[..k], 0, true, at);
    PlacedPrefix(text, patterns[..k], 0, at, j);
    assert patterns[..k][..j] == patterns[..j];
    assert Placed(text, patterns[..j], 0, true, at[..j]);
  }

  lemma {:induction false} MissingIs(stdout: string, expects: seq<string>, k: nat, m: nat)
    requires k <= m < |expects|
    requires Placeable(stdout, expects[..m], 0, true) && !Placeable(stdout, expects[..m + 1], 0, true)
    ensures MissingFrom(stdout, expects, k) == Some(m)
    decreases m - k
  {
    hide Placeable;
    if k < m {
      PlaceablePrefix(stdout, expects, k + 1, m);
      MissingIs(stdout, expects, k + 1, m);
    }
  }

  lemma NoneMissing(stdout: string, expects: seq<string>, k: nat)
    requires k <= |expects| && Placeable(stdout, expects, 0, true)
    ensures MissingFrom(stdout, expects, k).None?
  {
    hide Placeable;
    var m := MissingFrom(stdout, expects, k);
    assert expects[..|expects|] == expects;
    if m.Some? {
      PlaceablePrefix(stdout, expects, m.value + 1, |expects|);
    }
  }

  /** What one reached block adds. */
  ghost function OfBlock(i: nat, b: Block, o: Outcome, starts: set<string>): seq<Problem> {
    if o.rc != Some(0) then [Exited(i)]
    else if !IsStrict(o) then [NotStrict(i)]
    else
      (match MissingFrom(o.stdout, b.expects, 0)
       case Some(n) => [NotFound(i, n)]
       case None => [])
      + if IsUnexpected(b, o, starts) then [Unexpected(i)] else []
  }

  ghost function OfBlocks(blocks: seq<Block>, outs: seq<Outcome>, starts: set<string>, k: nat): seq<Problem>
    requires k <= |blocks| && k <= |outs|
  {
    if k == 0 then []
    else OfBlocks(blocks, outs, starts, k - 1) + OfBlock(k - 1, blocks[k - 1], outs[k - 1], starts)
  }

  function Reached(outs: seq<Outcome>): nat {
    if outs == [] then 0 else Reached(outs[..|outs| - 1]) + if outs[|outs| - 1].reached then 1 else 0
  }

  function Paired(blocks: seq<Block>, outs: seq<Outcome>): nat {
    if |blocks| <= |outs| then |blocks| else |outs|
  }

  /** The first block that did not reach its end, or their number. */
  function FirstUnreached(outs: seq<Outcome>, i: nat, n: nat): (f: nat)
    requires i <= n <= |outs|
    ensures i <= f <= n && (f < n ==> !outs[f].reached)
    ensures forall j :: i <= j < f ==> outs[j].reached
    decreases n - i
  {
    if i == n || !outs[i].reached then i else FirstUnreached(outs, i + 1, n)
  }

  predicate IsBroken(problem: Option<string>) {
    problem.Some? && problem.value != ""
  }

  function Why(problem: Option<string>, rc: int): Reason {
    if IsBroken(problem) then Broken(problem.value) else BashStatus(rc)
  }

  ghost function ProblemsOf(blocks: seq<Block>, outs: seq<Outcome>, problem: Option<string>, rc: int,
                            starts: set<string>):
    seq<Problem>
  {
    var n := Paired(blocks, outs);
    var f := FirstUnreached(outs, 0, n);
    var found := OfBlocks(blocks, outs, starts, f);
    if f < n then found + [NotReached(f, Why(problem, rc)), Executed(Reached(outs), |blocks|, f)]
    else if found != [] then found
    else if IsBroken(problem) then [RunBroken(problem.value)]
    else if rc != 0 then [BashExited(rc)]
    else []
  }

  /** The specified problems, found in one pass that stops at the first block without an end. */
  method JudgeRun(blocks: seq<Block>, outs: seq<Outcome>, problem: Option<string>, rc: int, starts: set<string>)
    returns (problems: seq<Problem>)
    requires forall b, e :: b in blocks && e in b.expects ==> e != ""
    ensures problems == ProblemsOf(blocks, outs, problem, rc, starts)
  {
    hide OfBlock, IsStrict, IsUnexpected;
    problems := [];
    var n := Paired(blocks, outs);
    for i := 0 to n
      invariant problems == OfBlocks(blocks, outs, starts, i)
      invariant FirstUnreached(outs, 0, n) == FirstUnreached(outs, i, n)
    {
      var b, o := blocks[i], outs[i];
      if !o.reached {
        problems := problems + [NotReached(i, Why(problem, rc))];
        var reached := CountReached(outs);
        problems := problems + [Executed(reached, |blocks|, i)];
        return;
      }
      var more := JudgeBlock(i, b, o, starts);
      problems := problems + more;
    }
    if IsBroken(problem) && problems == [] {
      problems := problems + [RunBroken(problem.value)];
    }
    if rc != 0 && problems == [] {
      problems := problems + [BashExited(rc)];
    }
  }

  method CountReached(outs: seq<Outcome>) returns (reached: nat)
    ensures reached == Reached(outs)
  {
    reached := 0;
    for k := 0 to |outs|
      invariant reached == Reached(outs[..k])
    {
      assert outs[..k + 1][..k] == outs[..k];
      if outs[k].reached {
        reached := reached + 1;
      }
    }
    assert outs[..|outs|] == outs;
  }

  /** The tests of one block that reached its end. */
  method JudgeBlock(i: nat, b: Block, o: Outcome, starts: set<string>) returns (problems: seq<Problem>)
    requires forall e :: e in b.expects ==> e != ""
    ensures problems == OfBlock(i, b, o, starts)
  {
    hide Placeable;
    problems := [];
    if o.rc != Some(0) {
      return [Exited(i)];
    }
    if 'e' !in o.flags || 'u' !in o.flags || o.pipefail != "pf" {
      return [NotStrict(i)];
    }
    var missing := FindMissing(o.stdout, b.expects);
    if missing.Some? {
      MissingIs(o.stdout, b.expects, 0, missing.value);
      problems := problems + [NotFound(i, missing.value)];
    } else {
      NoneMissing(o.stdout, b.expects, 0);
    }
    if Text.Strip(o.stdout) != "" && b.expects == [] && Text.Strip(b.body) !in starts {
      problems := problems + [Unexpected(i)];
    }
  }

  // --- What the verdict means ---

  lemma OfBlockIsExact(i: nat, b: Block, o: Outcome, starts: set<string>)
    requires o.reached
    ensures OfBlock(i, b, o, starts) == [] <==> Meets(b, o, starts)
  {
    hide Placeable, IsStrict, IsUnexpected;
    if Placeable(o.stdout, b.expects, 0, true) {
      NoneMissing(o.stdout, b.expects, 0);
    } else if b.expects == [] {
      NothingToPlace(o.stdout, 0, true);
    }
  }

  lemma {:induction false} OfBlocksIsExact(blocks: seq<Block>, outs: seq<Outcome>, starts: set<string>, k: nat)
    requires k <= |blocks| && k <= |outs| && forall j :: 0 <= j < k ==> outs[j].reached
    ensures OfBlocks(blocks, outs, starts, k) == [] <==> forall j :: 0 <= j < k ==> Meets(blocks[j], outs[j], starts)
  {
    hide OfBlock, Meets;
    if k > 0 {
      OfBlocksIsExact(blocks, outs, starts, k - 1);
      OfBlockIsExact(k - 1, blocks[k - 1], outs[k - 1], starts);
    }
  }

  /** The run is accepted exactly when every block met the page, nothing broke the run, and
      bash exited with zero. */
  lemma JudgeIsExact(blocks: seq<Block>, outs: seq<Outcome>, problem: Option<string>, rc: int, starts: set<string>)
    requires |blocks| == |outs|
    ensures ProblemsOf(blocks, outs, problem, rc, starts) == []
            <==> (forall j :: 0 <= j < |blocks| ==> Meets(blocks[j], outs[j], starts)) && !IsBroken(problem) && rc == 0
  {
    hide OfBlocks, Placeable;
    var f := FirstUnreached(outs, 0, |blocks|);
    OfBlocksIsExact(blocks, outs, starts, f);
  }

  // --- The verdict on a stream cut short ---

  lemma {:induction false} ReachedBelow(outs: seq<Outcome>, m: nat, n: nat)
    requires m <= n <= |outs|
    requires forall j :: 0 <= j < n ==> (outs[j].reached <==> j < m)
    ensures Reached(outs[..n]) == m
  {
    if n > 0 {
      assert outs[..n][..n - 1] == outs[..n - 1];
      ReachedBelow(outs, if m < n then m else n - 1, n - 1);
    }
  }

  lemma {:induction false} OnlyBelow(blocks: seq<Block>, outs: seq<Outcome>, starts: set<string>, k: nat, p: Problem)
    requires k <= |blocks| && k <= |outs| && p in OfBlocks(blocks, outs, starts, k)
    ensures IsOfBlock(p) && p.block < k
  {
    hide OfBlock, IsOfBlock;
    if p in OfBlocks(blocks, outs, starts, k - 1) {
      OnlyBelow(blocks, outs, starts, k - 1, p);
    } else {
      OnlyOfBlock(k - 1, blocks[k - 1], outs[k - 1], starts, p);
    }
  }

  /** A problem with one block that reached its end. */
  predicate IsOfBlock(p: Problem) {
    p.Exited? || p.NotStrict? || p.NotFound? || p.Unexpected?
  }

  lemma OnlyOfBlock(i: nat, b: Block, o: Outcome, starts: set<string>, p: Problem)
    requires p in OfBlock(i, b, o, starts)
    ensures IsOfBlock(p) && p.block == i
  {
    hide MissingFrom, IsStrict, IsUnexpected;
  }

  /** However the page's stream was cut, the verdict ends by naming the first block whose end
      sentinel is missing and counting the ones before it; every other problem is about one of
      those. */
  lemma CutRunIsNamed(nonce: string, rans: seq<Ran>, t: string,
                      blocks: seq<Block>, problem: Option<string>, rc: int, starts: set<string>, j: nat)
    requires Clean(nonce, rans) && t <= StreamFrom(nonce, rans, 0) && |blocks| == |rans|
    requires j < |rans| && EndsBy(nonce, rans, 0, j) > |t|
    requires forall i: nat :: i < j ==> EndsBy(nonce, rans, 0, i) <= |t|
    ensures var outs := ReadLines(nonce, Unread(|rans|), Lines(t)).outcomes;
            var said := ProblemsOf(blocks, outs, problem, rc, starts);
            && |said| >= 2
            && said[|said| - 2..] == [NotReached(j, Why(problem, rc)), Executed(j, |rans|, j)]
            && forall p :: p in said[..|said| - 2]
                 ==> IsOfBlock(p) && p.block < j
  {
    hide ReadLines, Lines, StreamFrom, Clean, EndsBy, OfBlocks, Finished, Unread;
    var outs := ReadLines(nonce, Unread(|rans|), Lines(t)).outcomes;
    var m := StreamCutAnywhere(nonce, rans, t);
    assert m < |rans| ==> EndsBy(nonce, rans, 0, m) > |t|;
    assert m == j;
    ReachedUpTo(rans, outs, j);
    ReachedBelow(outs, j, |outs|);
    assert outs[..|outs|] == outs;
    var said := ProblemsOf(blocks, outs, problem, rc, starts);
    var before := OfBlocks(blocks, outs, starts, j);
    assert said[..|said| - 2] == before;
    forall p | p in before
      ensures IsOfBlock(p) && p.block < j
    {
      OnlyBelow(blocks, outs, starts, j, p);
    }
  }

  lemma ReachedUpTo(rans: seq<Ran>, outs: seq<Outcome>, m: nat)
    requires Reaches(rans, outs, m) && m < |rans|
    ensures FirstUnreached(outs, 0, |outs|) == m
    ensures forall j :: 0 <= j < |outs| ==> (outs[j].reached <==> j < m)
  {
  }

  /** What the page asks of a block, said of the block itself. */
  ghost predicate Behaves(b: Block, r: Ran, starts: set<string>) {
    Meets(b, Finished(r), starts)
  }

  /** The verdict on a whole stream, said of the blocks that printed it. */
  lemma WholeRunIsExact(nonce: string, rans: seq<Ran>,
                        blocks: seq<Block>, problem: Option<string>, rc: int, starts: set<string>)
    requires Clean(nonce, rans) && |blocks| == |rans|
    ensures var outs := ReadLines(nonce, Unread(|rans|), Lines(StreamFrom(nonce, rans, 0))).outcomes;
            ProblemsOf(blocks, outs, problem, rc, starts) == []
            <==> (forall j :: 0 <= j < |blocks| ==> Behaves(blocks[j], rans[j], starts))
                 && !IsBroken(problem) && rc == 0
  {
    hide ReadLines, Lines, StreamFrom, Clean, Unread, Finished, Meets, ProblemsOf;
    StreamIsRead(nonce, rans);
    JudgeIsExact(blocks, ReadLines(nonce, Unread(|rans|), Lines(StreamFrom(nonce, rans, 0))).outcomes, problem, rc,
                 starts);
  }
}
