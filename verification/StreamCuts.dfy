/** The round trip of the sentinel stream, and what is left of it when the run is cut short. */
module StreamCuts {
  import opened Wrappers
  import opened Numbers
  import opened Stream
  import opened StreamFacts
  import opened StreamReading
  import opened Sequences

  /** What a block that ran to its end left: its output and one line break. */
  function Finished(b: Ran): Outcome {
    Outcome(true, Some(b.rc), b.flags, b.pipefail, b.output + "\n")
  }

  /** The block's end was not read: nothing is known but what it printed so far. */
  predicate Unfinished(o: Outcome) {
    o == UNREAD.(stdout := o.stdout)
  }

  /** The first `m` blocks finished, the others not begun. */
  function Seen(blocks: seq<Ran>, m: nat): (outs: seq<Outcome>)
    ensures |outs| == |blocks|
  {
    seq(|blocks|, j requires 0 <= j < |blocks| => if j < m then Finished(blocks[j]) else UNREAD)
  }

  predicate Clean(nonce: string, blocks: seq<Ran>) {
    CleanNonce(nonce) && forall i :: 0 <= i < |blocks| ==> CleanRan(blocks[i]) && Quiet(nonce, blocks[i])
  }

  // --- The parts of a block's stretch ---

  function Head(nonce: string, i: nat): string {
    "\n" + (Begin(nonce, i) + "\n")
  }

  function Body(b: Ran): string {
    b.output + "\n"
  }

  lemma Parts(nonce: string, i: nat, b: Ran)
    ensures BlockStream(nonce, i, b) == Head(nonce, i) + (Body(b) + (End(nonce, i, b) + "\n"))
    ensures Ended(Head(nonce, i)) && Ended(Body(b))
  {
    hide Begin, End;
  }

  lemma NoBreaks(nonce: string, i: nat, b: Ran)
    requires CleanNonce(nonce) && CleanRan(b)
    ensures '\n' !in Begin(nonce, i) && '\n' !in End(nonce, i, b)
  {
    hide Digits, CleanRan, EndFields;
    DigitsAre(i);
    NoneOf(Digits(i));
    EndFieldsClean(i, b);
  }

  lemma SentinelEnds(nonce: string, i: nat, b: Ran)
    ensures Begin(nonce, i) != "" && Begin(nonce, i)[|Begin(nonce, i)| - 1] == '@'
    ensures End(nonce, i, b) != "" && End(nonce, i, b)[|End(nonce, i, b)| - 1] == '@'
  {
    hide BeginHead, EndHead, Digits, EndFields;
  }

  lemma ReadBegin(nonce: string, st: State, i: nat, tail: string)
    requires !st.dead
    ensures ReadLine(nonce, st, Begin(nonce, i) + tail) == st.(current := Some(i))
  {
    hide Begin, SearchBegin, SearchEnd;
    BeginSearched(nonce, i, tail);
  }

  lemma ReadEnd(nonce: string, outs: seq<Outcome>, i: nat, b: Ran, tail: string)
    requires CleanNonce(nonce) && CleanRan(b) && '@' !in tail
    requires i < |outs| && outs[i] == UNREAD.(stdout := Body(b))
    ensures ReadLine(nonce, State(Some(i), outs, false), End(nonce, i, b) + tail)
         == State(None, outs[i := Finished(b)], false)
  {
    hide End, SearchBegin, SearchEnd, CleanRan, CleanNonce;
    EndSearched(nonce, i, b, tail);
  }

  lemma ReadHead(nonce: string, st: State, i: nat, b: Ran)
    requires CleanNonce(nonce) && CleanRan(b) && !st.dead && st.current.None?
    ensures ReadLines(nonce, st, Lines(Head(nonce, i))) == st.(current := Some(i))
  {
    hide Begin, ReadLine, ReadLines, Lines, CleanRan, CleanNonce;
    ReadOn(nonce, st, "\n", Begin(nonce, i) + "\n");
    ReadBlank(nonce, st);
    NoBreaks(nonce, i, b);
    OneLine(Begin(nonce, i));
    ReadOne(nonce, st, Begin(nonce, i) + "\n");
    ReadBegin(nonce, st, i, "\n");
  }

  /** The state in which a block's output is being read. */
  lemma ReadToBody(nonce: string, outs: seq<Outcome>, i: nat, b: Ran, text: string)
    requires CleanNonce(nonce) && CleanRan(b) && i < |outs| && outs[i] == UNREAD
    requires QuietLines(nonce, Lines(text))
    ensures ReadLines(nonce, State(None, outs, false), Lines(Head(nonce, i) + text))
         == State(Some(i), outs[i := UNREAD.(stdout := text)], false)
  {
    hide Head, ReadLine, ReadLines, Lines, CleanRan, CleanNonce, QuietLines;
    Parts(nonce, i, b);
    ReadOn(nonce, State(None, outs, false), Head(nonce, i), text);
    ReadHead(nonce, State(None, outs, false), i, b);
    ReadQuiet(nonce, State(Some(i), outs, false), i, text);
    assert UNREAD.stdout + text == text;
  }

  /** Through the block's body, and then its last part, whole or cut. */
  lemma ReadThrough(nonce: string, outs: seq<Outcome>, i: nat, b: Ran, last: string)
    requires CleanNonce(nonce) && CleanRan(b) && Quiet(nonce, b) && i < |outs| && outs[i] == UNREAD
    ensures ReadLines(nonce, State(None, outs, false), Lines(Head(nonce, i) + (Body(b) + last)))
         == ReadLines(nonce, State(Some(i), outs[i := UNREAD.(stdout := Body(b))], false), Lines(last))
  {
    hide Head, ReadLines, Lines, CleanRan, CleanNonce, QuietLines;
    Parts(nonce, i, b);
    Assoc(Head(nonce, i), Body(b), last);
    EndedAfter(Head(nonce, i), Body(b));
    ReadOn(nonce, State(None, outs, false), Head(nonce, i) + Body(b), last);
    ReadToBody(nonce, outs, i, b, Body(b));
  }

  lemma EndedAfter(a: string, b: string)
    requires Ended(a) && Ended(b)
    ensures Ended(a + b)
  {
  }

  /** With the end sentinel read, the block's outcome is known; its line break may be missing. */
  lemma ReadBlock(nonce: string, outs: seq<Outcome>, i: nat, b: Ran, tail: string)
    requires CleanNonce(nonce) && CleanRan(b) && Quiet(nonce, b) && i < |outs| && outs[i] == UNREAD
    requires tail == "" || tail == "\n"
    ensures ReadLines(nonce, State(None, outs, false), Lines(Head(nonce, i) + (Body(b) + (End(nonce, i, b) + tail))))
         == State(None, outs[i := Finished(b)], false)
  {
    hide Head, Body, End, Finished, ReadLine, ReadLines, Lines, CleanRan, CleanNonce, Quiet;
    var mid := State(Some(i), outs[i := UNREAD.(stdout := Body(b))], false);
    var end := End(nonce, i, b);
    ReadThrough(nonce, outs, i, b, end + tail);
    NoBreaks(nonce, i, b);
    SentinelEnds(nonce, i, b);
    OneLine(end);
    assert end + "" == end;
    ReadOne(nonce, mid, end + tail);
    ReadEnd(nonce, mid.outcomes, i, b, tail);
    assert mid.outcomes[i := Finished(b)] == outs[i := Finished(b)];
  }

  // --- The whole stream ---

  lemma SeenNext(blocks: seq<Ran>, m: nat)
    requires m < |blocks|
    ensures Seen(blocks, m)[m] == UNREAD && Seen(blocks, m)[m := Finished(blocks[m])] == Seen(blocks, m + 1)
  {
    hide Finished;
  }

  lemma BlockIsEnded(nonce: string, i: nat, b: Ran)
    ensures Ended(BlockStream(nonce, i, b)) && BlockStream(nonce, i, b) != ""
  {
    hide Begin, End;
  }

  /** Reading a whole block moves the reader on by one. */
  lemma ReadNext(nonce: string, blocks: seq<Ran>, i: nat, rest: string)
    requires Clean(nonce, blocks) && i < |blocks|
    ensures ReadLines(nonce, State(None, Seen(blocks, i), false), Lines(BlockStream(nonce, i, blocks[i]) + rest))
         == ReadLines(nonce, State(None, Seen(blocks, i + 1), false), Lines(rest))
  {
    hide Head, Body, End, BlockStream, Finished, Seen, ReadLines, Lines, CleanRan, CleanNonce, Quiet;
    var b, st := blocks[i], State(None, Seen(blocks, i), false);
    BlockIsEnded(nonce, i, b);
    ReadOn(nonce, st, BlockStream(nonce, i, b), rest);
    Parts(nonce, i, b);
    SeenNext(blocks, i);
    ReadBlock(nonce, Seen(blocks, i), i, b, "\n");
  }

  lemma {:induction false} ReadFrom(nonce: string, blocks: seq<Ran>, i: nat)
    requires Clean(nonce, blocks) && i <= |blocks|
    ensures ReadLines(nonce, State(None, Seen(blocks, i), false), Lines(StreamFrom(nonce, blocks, i)))
         == State(None, Seen(blocks, |blocks|), false)
    decreases |blocks| - i
  {
    hide BlockStream, Seen, ReadLines, Lines, Clean;
    var st := State(None, Seen(blocks, i), false);
    if i == |blocks| {
      NoLines();
      ReadNone(nonce, st);
    } else {
      ReadNext(nonce, blocks, i, StreamFrom(nonce, blocks, i + 1));
      ReadFrom(nonce, blocks, i + 1);
    }
  }

  lemma NothingSeen(blocks: seq<Ran>)
    ensures Unread(|blocks|) == State(None, Seen(blocks, 0), false)
  {
    assert Unread(|blocks|).outcomes == Seen(blocks, 0);
  }

  /** The round trip: reading what the script prints gives every block's exit status, flags and
      output back. */
  lemma StreamIsRead(nonce: string, blocks: seq<Ran>)
    requires Clean(nonce, blocks)
    ensures var outs := ReadLines(nonce, Unread(|blocks|), Lines(StreamFrom(nonce, blocks, 0))).outcomes;
            |outs| == |blocks| && forall j :: 0 <= j < |blocks| ==> outs[j] == Finished(blocks[j])
  {
    hide ReadLines, Lines, StreamFrom, Clean;
    NothingSeen(blocks);
    ReadFrom(nonce, blocks, 0);
  }

  // --- A stream cut short ---

  /** Blocks below `m` finished, none from `m` on has, and those above it are untouched. */
  predicate Reaches(blocks: seq<Ran>, outs: seq<Outcome>, m: nat) {
    && m <= |blocks| == |outs|
    && (forall j :: 0 <= j < m ==> outs[j] == Finished(blocks[j]))
    && (m < |blocks| ==> Unfinished(outs[m]))
    && (forall j :: m < j < |blocks| ==> outs[j] == UNREAD)
  }

  /** Where, in the stream from block `i` on, the end sentinel of block `j` closes. */
  function EndsBy(nonce: string, blocks: seq<Ran>, i: nat, j: nat): int
    requires i <= j < |blocks|
    decreases j - i
  {
    var here := |BlockStream(nonce, i, blocks[i])|;
    if i == j then here - 1 else here + EndsBy(nonce, blocks, i + 1, j)
  }

  /** A prefix of `a + (b + c)` ends in the first, the second or the third part. */
  lemma PrefixOfThree(t: string, a: string, b: string, c: string) returns (k: nat)
    requires t <= a + (b + c)
    ensures
      || (k <= |a| && t == a[..k])
      || (k <= |b| && t == a + b[..k])
      || (0 < k <= |c| && t == a + (b + c[..k]))
  {
    var whole := a + (b + c);
    assert t == whole[..|t|];
    if |t| <= |a| {
      k := |t|;
      assert whole[..k] == a[..k];
    } else if |t| <= |a| + |b| {
      k := |t| - |a|;
      assert whole[..|t|] == a + b[..k];
    } else {
      k := |t| - |a| - |b|;
      assert whole[..|t|] == a + (b + c[..k]);
    }
  }

  lemma CutInHead(nonce: string, outs: seq<Outcome>, i: nat, b: Ran, k: nat)
    requires CleanNonce(nonce) && CleanRan(b) && k <= |Head(nonce, i)|
    ensures ReadLines(nonce, State(None, outs, false), Lines(Head(nonce, i)[..k])).outcomes == outs
  {
    hide Begin, ReadLine, ReadLines, Lines, CleanRan, CleanNonce;
    var begin, st := Begin(nonce, i), State(None, outs, false);
    NoBreaks(nonce, i, b);
    SentinelEnds(nonce, i, b);
    if k == |Head(nonce, i)| {
      assert Head(nonce, i)[..k] == Head(nonce, i);
      ReadHead(nonce, st, i, b);
    } else if k == 0 {
      assert Head(nonce, i)[..k] == "";
      NoLines();
      ReadNone(nonce, st);
    } else {
      var part := begin[..k - 1];
      assert Head(nonce, i)[..k] == "\n" + part;
      ReadOn(nonce, st, "\n", part);
      ReadBlank(nonce, st);
      CutBegin(nonce, st, i, b, k - 1);
    }
  }

  lemma CutBegin(nonce: string, st: State, i: nat, b: Ran, k: nat)
    requires CleanNonce(nonce) && CleanRan(b) && k <= |Begin(nonce, i)| && st.current.None? && !st.dead
    ensures ReadLines(nonce, st, Lines(Begin(nonce, i)[..k])).outcomes == st.outcomes
  {
    hide Begin, ReadLine, ReadLines, Lines, CleanRan, CleanNonce;
    var begin := Begin(nonce, i);
    var part := begin[..k];
    NoBreaks(nonce, i, b);
    SentinelEnds(nonce, i, b);
    if k == 0 {
      NoLines();
      ReadNone(nonce, st);
    } else {
      OneLine(part);
      ReadOne(nonce, st, part);
      if k == |begin| {
        assert part == begin + "";
        ReadBegin(nonce, st, i, "");
      } else {
        SentinelAts(nonce, i, b);
        CutSentinelIsQuiet(nonce, begin, k);
        QuietOutside(nonce, st, part);
      }
    }
  }

  lemma QuietOutside(nonce: string, st: State, line: string)
    requires QuietLine(nonce, line) && st.current.None?
    ensures ReadLine(nonce, st, line) == st
  {
    hide SearchBegin, SearchEnd;
  }

  lemma CutInBody(nonce: string, outs: seq<Outcome>, i: nat, b: Ran, k: nat)
    requires CleanNonce(nonce) && CleanRan(b) && Quiet(nonce, b) && i < |outs| && outs[i] == UNREAD && k <= |Body(b)|
    ensures ReadLines(nonce, State(None, outs, false), Lines(Head(nonce, i) + Body(b)[..k])).outcomes
         == outs[i := UNREAD.(stdout := Body(b)[..k])]
  {
    hide Head, ReadLines, Lines, CleanRan, CleanNonce, QuietLines;
    QuietPrefix(nonce, Body(b), k);
    ReadToBody(nonce, outs, i, b, Body(b)[..k]);
  }

  lemma CutInEnd(nonce: string, outs: seq<Outcome>, i: nat, b: Ran, k: nat)
    requires CleanNonce(nonce) && CleanRan(b) && Quiet(nonce, b) && i < |outs| && outs[i] == UNREAD
    requires 0 < k < |End(nonce, i, b)|
    ensures ReadLines(nonce, State(None, outs, false),
                      Lines(Head(nonce, i) + (Body(b) + End(nonce, i, b)[..k]))).outcomes
         == outs[i := UNREAD.(stdout := Body(b) + End(nonce, i, b)[..k])]
  {
    hide Head, Body, End, ReadLine, ReadLines, Lines, CleanRan, CleanNonce, Quiet, QuietLine;
    var part := End(nonce, i, b)[..k];
    var mid := State(Some(i), outs[i := UNREAD.(stdout := Body(b))], false);
    ReadThrough(nonce, outs, i, b, part);
    NoBreaks(nonce, i, b);
    SentinelEnds(nonce, i, b);
    SentinelAts(nonce, i, b);
    CutSentinelIsQuiet(nonce, End(nonce, i, b), k);
    OneLine(part);
    ReadOne(nonce, mid, part);
    QuietIsRead(nonce, mid, i, part);
  }

  /** The stream cut inside block `i`: everything but its last line break is needed. */
  lemma CutInBlock(nonce: string, outs: seq<Outcome>, i: nat, b: Ran, t: string)
    requires CleanNonce(nonce) && CleanRan(b) && Quiet(nonce, b) && i < |outs| && outs[i] == UNREAD
    requires t < BlockStream(nonce, i, b)
    ensures var r := ReadLines(nonce, State(None, outs, false), Lines(t)).outcomes;
            && |r| == |outs| && r == outs[i := r[i]]
            && r[i] == if |t| == |BlockStream(nonce, i, b)| - 1 then Finished(b) else UNREAD.(stdout := r[i].stdout)
  {
    hide Head, Body, End, BlockStream, Finished, ReadLines, Lines, CleanRan, CleanNonce, Quiet;
    Parts(nonce, i, b);
    SentinelEnds(nonce, i, b);
    var end := End(nonce, i, b);
    var k := PrefixOfThree(t, Head(nonce, i), Body(b), end + "\n");
    if k <= |Head(nonce, i)| && t == Head(nonce, i)[..k] {
      CutInHead(nonce, outs, i, b, k);
      assert outs == outs[i := outs[i]];
    } else if k <= |Body(b)| && t == Head(nonce, i) + Body(b)[..k] {
      CutInBody(nonce, outs, i, b, k);
    } else if k < |end| {
      assert (end + "\n")[..k] == end[..k];
      CutInEnd(nonce, outs, i, b, k);
    } else {
      assert (end + "\n")[..|end|] == end + "" && (end + "\n")[..|end| + 1] == end + "\n";
      assert k == |end|;
      ReadBlock(nonce, outs, i, b, "");
    }
  }

  /** How many blocks' end sentinels the first `size` characters of the stream hold. */
  function EndsWithin(nonce: string, blocks: seq<Ran>, i: nat, size: nat): (m: nat)
    requires i <= |blocks|
    ensures i <= m <= |blocks|
    decreases |blocks| - i
  {
    if i == |blocks| then i
    else
      var here := |BlockStream(nonce, i, blocks[i])|;
      if size < here - 1 then i
      else if size < here then i + 1
      else EndsWithin(nonce, blocks, i + 1, size - here)
  }

  lemma {:induction false} EndsWithinIs(nonce: string, blocks: seq<Ran>, i: nat, size: nat, j: nat)
    requires i <= j < |blocks|
    ensures j < EndsWithin(nonce, blocks, i, size) <==> EndsBy(nonce, blocks, i, j) <= size
    decreases |blocks| - i
  {
    hide BlockStream;
    var here := |BlockStream(nonce, i, blocks[i])|;
    BlockIsEnded(nonce, i, blocks[i]);
    if i < j {
      EndsGrow(nonce, blocks, i + 1, j);
      if size >= here {
        EndsWithinIs(nonce, blocks, i + 1, size - here, j);
      }
    }
  }

  lemma {:induction false} EndsGrow(nonce: string, blocks: seq<Ran>, i: nat, j: nat)
    requires i <= j < |blocks|
    ensures EndsBy(nonce, blocks, i, j) > 0
    decreases j - i
  {
    hide Begin, End;
    if i < j {
      EndsGrow(nonce, blocks, i + 1, j);
    }
  }

  lemma {:induction false} CutFrom(nonce: string, blocks: seq<Ran>, i: nat, t: string)
    requires Clean(nonce, blocks) && i <= |blocks| && t <= StreamFrom(nonce, blocks, i)
    ensures Reaches(blocks, ReadLines(nonce, State(None, Seen(blocks, i), false), Lines(t)).outcomes,
                    EndsWithin(nonce, blocks, i, |t|))
    decreases |blocks| - i
  {
    hide BlockStream, Seen, ReadLines, Lines, Clean, Reaches;
    var st := State(None, Seen(blocks, i), false);
    if i == |blocks| {
      NoLines();
      ReadNone(nonce, st);
      SeenReaches(blocks, i);
    } else {
      var here, rest := BlockStream(nonce, i, blocks[i]), StreamFrom(nonce, blocks, i + 1);
      if |t| < |here| {
        PrefixOfPair(t, here, rest);
        LastBlock(nonce, blocks, i, t);
      } else {
        var more := t[|here|..];
        SuffixOfPair(t, here, rest);
        ReadNext(nonce, blocks, i, more);
        CutFrom(nonce, blocks, i + 1, more);
      }
    }
  }

  lemma PrefixOfPair(t: string, a: string, b: string)
    requires t <= a + b && |t| < |a|
    ensures t < a
  {
    assert t == (a + b)[..|t|] == a[..|t|];
  }

  lemma SuffixOfPair(t: string, a: string, b: string)
    requires t <= a + b && |t| >= |a|
    ensures t == a + t[|a|..] && t[|a|..] <= b
  {
    assert t == (a + b)[..|t|];
    assert t[|a|..] == b[..|t| - |a|];
  }

  lemma SeenReaches(blocks: seq<Ran>, m: nat)
    requires m <= |blocks|
    ensures Reaches(blocks, Seen(blocks, m), m)
  {
    hide Finished;
  }

  lemma LastBlock(nonce: string, blocks: seq<Ran>, i: nat, t: string)
    requires Clean(nonce, blocks) && i < |blocks| && t < BlockStream(nonce, i, blocks[i])
    ensures Reaches(blocks, ReadLines(nonce, State(None, Seen(blocks, i), false), Lines(t)).outcomes,
                    EndsWithin(nonce, blocks, i, |t|))
  {
    hide BlockStream, Finished, Seen, ReadLines, Lines, CleanNonce, CleanRan, Quiet, Reaches;
    var outs := Seen(blocks, i);
    SeenNext(blocks, i);
    CutInBlock(nonce, outs, i, blocks[i], t);
    var r := ReadLines(nonce, State(None, outs, false), Lines(t)).outcomes;
    if |t| == |BlockStream(nonce, i, blocks[i])| - 1 {
      SeenReaches(blocks, i + 1);
    } else {
      SeenReaches(blocks, i);
      StillReaches(blocks, outs, r[i], i);
    }
  }

  lemma StillReaches(blocks: seq<Ran>, outs: seq<Outcome>, o: Outcome, m: nat)
    requires Reaches(blocks, outs, m) && m < |blocks| && Unfinished(o)
    ensures Reaches(blocks, outs[m := o], m)
  {
    hide Finished;
  }

  /** Any prefix of the stream, wherever it is cut, leaves an initial segment of the blocks
      reached, each with its whole output; a block is in it exactly when its end sentinel is
      in the prefix. */
  lemma StreamCutAnywhere(nonce: string, blocks: seq<Ran>, t: string) returns (m: nat)
    requires Clean(nonce, blocks) && t <= StreamFrom(nonce, blocks, 0)
    ensures Reaches(blocks, ReadLines(nonce, Unread(|blocks|), Lines(t)).outcomes, m)
    ensures forall j: nat :: j < |blocks| ==> (j < m <==> EndsBy(nonce, blocks, 0, j) <= |t|)
  {
    hide ReadLines, Lines, StreamFrom, Clean, Seen, Reaches, EndsBy, EndsWithin;
    m := EndsWithin(nonce, blocks, 0, |t|);
    NothingSeen(blocks);
    CutFrom(nonce, blocks, 0, t);
    forall j: nat | j < |blocks| ensures j < m <==> EndsBy(nonce, blocks, 0, j) <= |t| {
      EndsWithinIs(nonce, blocks, 0, |t|, j);
    }
  }
}
