/** Which lines hold a sentinel, and what it carries, written out by their characters. */
module StreamMarks {
  import opened Wrappers
  import opened Numbers
  import opened Stream
  import opened StreamFacts
  import opened StreamReading

  /** A run of members at `from` that the stop follows, up to `next`. */
  predicate IsField(line: string, from: nat, member: char -> bool, stop: string, run: string, next: nat) {
    && from + |run| + |stop| == next <= |line|
    && line[from..next] == run + stop && forall k :: 0 <= k < |run| ==> member(run[k])
  }

  /** Where the stop cannot go on with the run, there is one such field or none. */
  lemma FieldIs(line: string, from: nat, member: char -> bool, stop: string, run: string, next: nat)
    requires stop != "" && !member(stop[0])
    ensures TakeField(line, from, member, stop) == Some((run, next)) <==> IsField(line, from, member, stop, run, next)
  {
    if IsField(line, from, member, stop, run, next) {
      assert line[from..] == line[from..next] + line[next..];
      assert line[from..] == run + (stop + line[next..]);
      FieldAt(line, from, run, stop, line[next..], member);
    }
    if TakeField(line, from, member, stop) == Some((run, next)) {
      var to := RunEnd(line, from, member);
      assert line[to..][..|stop|] == stop;
      assert line[from..next] == line[from..to] + line[to..next];
    }
  }

  /** A numeral: digits, at least one. */
  predicate IsNumeral(run: string, n: nat) {
    run != "" && AllDigits(run) && Value(run) == n
  }

  ghost predicate IsNumber(line: string, from: nat, stop: string, n: nat, next: nat) {
    exists run :: IsNumeral(run, n) && IsField(line, from, Digit(), stop, run, next)
  }

  lemma NumberIs(line: string, from: nat, stop: string, n: nat, next: nat)
    requires stop != "" && !IsDigit(stop[0])
    ensures TakeNumber(line, from, stop) == Some((n, next)) <==> IsNumber(line, from, stop, n, next)
  {
    hide TakeField, Value, IsField;
    var field := TakeField(line, from, Digit(), stop);
    if field.Some? {
      FieldIs(line, from, Digit(), stop, field.value.0, field.value.1);
    }
    if IsNumber(line, from, stop, n, next) {
      var run :| IsNumeral(run, n) && IsField(line, from, Digit(), stop, run, next);
      FieldIs(line, from, Digit(), stop, run, next);
    }
  }

  // --- Sentinels at a place ---

  /** The text begins with a begin sentinel of the block: its numeral between the two marks. */
  ghost predicate IsBegin(nonce: string, text: string, i: nat) {
    exists run, tail :: IsNumeral(run, i) && text == BeginHead(nonce) + run + CLOSE + tail
  }

  /** The text begins with an end sentinel of these two numerals, flags and word. */
  ghost predicate IsEnd(nonce: string, text: string, m: Mark) {
    exists block, rc, tail :: IsEndOf(nonce, text, m, block, rc, tail)
  }

  predicate IsEndOf(nonce: string, text: string, m: Mark, block: string, rc: string, tail: string) {
    && IsNumeral(block, m.block) && IsNumeral(rc, m.rc)
    && (forall k :: 0 <= k < |m.flags| ==> Flag()(m.flags[k]))
    && (forall k :: 0 <= k < |m.pipefail| ==> Lower()(m.pipefail[k]))
    && text == EndHead(nonce) + (block + (":" + (rc + (":" + (m.flags + (":" + (m.pipefail + (CLOSE + tail))))))))
  }

  /** A field by what it leaves of the line. */
  lemma FieldLeaves(line: string, from: nat, member: char -> bool, stop: string, run: string, rest: string)
    requires from <= |line|
    ensures line[from..] == run + (stop + rest) && (forall k :: 0 <= k < |run| ==> member(run[k])) <==>
            IsField(line, from, member, stop, run, from + |run| + |stop|) && line[from + |run| + |stop|..] == rest
  {
    var next := from + |run| + |stop|;
    if line[from..] == run + (stop + rest) {
      assert line[from..] == (run + stop) + rest;
      assert line[from..next] == line[from..][..next - from] && line[next..] == line[from..][next - from..];
    }
    if next <= |line| && line[from..next] == run + stop && line[next..] == rest {
      assert line[from..] == line[from..next] + line[next..];
    }
  }

  lemma HeadLeaves(line: string, p: nat, head: string)
    requires p <= |line|
    ensures StartsAt(line, p, head) <==> p + |head| <= |line| && line[p..] == head + line[p + |head|..]
  {
    if StartsAt(line, p, head) {
      assert line[p..][|head|..] == line[p + |head|..];
    }
  }

  lemma BeginMeans(nonce: string, line: string, p: nat, i: nat)
    requires p <= |line|
    ensures BeginAt(nonce, line, p) == Some(i) <==> IsBegin(nonce, line[p..], i)
  {
    hide BeginHead, Value, TakeNumber, StartsAt, IsField;
    var head := BeginHead(nonce);
    HeadLeaves(line, p, head);
    if BeginAt(nonce, line, p) == Some(i) {
      var from, next := p + |head|, TakeNumber(line, p + |head|, CLOSE).value.1;
      NumberIs(line, from, CLOSE, i, next);
      var run :| IsNumeral(run, i) && IsField(line, from, Digit(), CLOSE, run, next);
      assert next == from + |run| + |CLOSE| by { FieldEnds(line, from, Digit(), CLOSE, run, next); }
      FieldLeaves(line, from, Digit(), CLOSE, run, line[next..]);
      assert line[p..] == head + run + CLOSE + line[next..];
    }
    if IsBegin(nonce, line[p..], i) {
      var run, tail :| IsNumeral(run, i) && line[p..] == head + run + CLOSE + tail;
      assert line[p..] == head + (run + (CLOSE + tail));
      assert line[p + |head|..] == line[p..][|head|..];
      DigitsOnly(run);
      FieldLeaves(line, p + |head|, Digit(), CLOSE, run, tail);
      NumberIs(line, p + |head|, CLOSE, i, p + |head| + |run| + |CLOSE|);
    }
  }

  lemma FieldEnds(line: string, from: nat, member: char -> bool, stop: string, run: string, next: nat)
    requires IsField(line, from, member, stop, run, next)
    ensures next == from + |run| + |stop| <= |line|
  {
  }

  lemma DigitsOnly(run: string)
    requires AllDigits(run)
    ensures forall k :: 0 <= k < |run| ==> Digit()(run[k])
  {
  }

  /** A number by what it leaves of the line. */
  lemma NumberLeaves(line: string, from: nat, stop: string) returns (run: string)
    requires stop != "" && !IsDigit(stop[0]) && TakeNumber(line, from, stop).Some?
    ensures var (n, next) := TakeNumber(line, from, stop).value;
            IsNumeral(run, n) && from <= next <= |line| && line[from..] == run + (stop + line[next..])
  {
    hide TakeNumber, IsField, Value, AllDigits;
    var (n, next) := TakeNumber(line, from, stop).value;
    NumberIs(line, from, stop, n, next);
    run :| IsNumeral(run, n) && IsField(line, from, Digit(), stop, run, next);
    FieldEnds(line, from, Digit(), stop, run, next);
    FieldLeaves(line, from, Digit(), stop, run, line[next..]);
  }

  lemma NumberTaken(line: string, from: nat, stop: string, run: string, n: nat, rest: string)
    requires stop != "" && !IsDigit(stop[0]) && from <= |line|
    requires IsNumeral(run, n) && line[from..] == run + (stop + rest)
    ensures var next := from + |run| + |stop|;
            TakeNumber(line, from, stop) == Some((n, next)) && next <= |line| && line[next..] == rest
  {
    hide TakeNumber, Value, IsField;
    DigitsOnly(run);
    FieldLeaves(line, from, Digit(), stop, run, rest);
    var next := from + |run| + |stop|;
    FieldEnds(line, from, Digit(), stop, run, next);
    NumberIs(line, from, stop, n, next);
  }

  lemma EndMeans(nonce: string, line: string, p: nat, m: Mark)
    requires p <= |line|
    ensures EndAt(nonce, line, p) == Some(m) <==> IsEnd(nonce, line[p..], m)
  {
    hide EndAt, IsEndOf;
    if EndAt(nonce, line, p) == Some(m) {
      EndLeaves(nonce, line, p, m);
    }
    if IsEnd(nonce, line[p..], m) {
      var block, rc, tail :| IsEndOf(nonce, line[p..], m, block, rc, tail);
      EndTaken(nonce, line, p, m, block, rc, tail);
    }
  }

  lemma EndLeaves(nonce: string, line: string, p: nat, m: Mark)
    requires p <= |line| && EndAt(nonce, line, p) == Some(m)
    ensures IsEnd(nonce, line[p..], m)
  {
    hide EndHead, Value, TakeNumber, TakeField, StartsAt, IsField, IsNumeral;
    var b0 := p + |EndHead(nonce)|;
    HeadLeaves(line, p, EndHead(nonce));
    var block := NumberLeaves(line, b0, ":");
    var r0 := TakeNumber(line, b0, ":").value.1;
    var rc := NumberLeaves(line, r0, ":");
    var f0 := TakeNumber(line, r0, ":").value.1;
    var p0 := TakeField(line, f0, Flag(), ":").value.1;
    FieldIs(line, f0, Flag(), ":", m.flags, p0);
    FieldEnds(line, f0, Flag(), ":", m.flags, p0);
    FieldLeaves(line, f0, Flag(), ":", m.flags, line[p0..]);
    var end := TakeField(line, p0, Lower(), CLOSE).value.1;
    FieldIs(line, p0, Lower(), CLOSE, m.pipefail, end);
    FieldEnds(line, p0, Lower(), CLOSE, m.pipefail, end);
    FieldLeaves(line, p0, Lower(), CLOSE, m.pipefail, line[end..]);
    assert IsEndOf(nonce, line[p..], m, block, rc, line[end..]);
  }

  lemma EndTaken(nonce: string, line: string, p: nat, m: Mark, block: string, rc: string, tail: string)
    requires p <= |line| && IsEndOf(nonce, line[p..], m, block, rc, tail)
    ensures EndAt(nonce, line, p) == Some(m)
  {
    hide EndHead, Value, TakeNumber, TakeField, StartsAt, IsField, IsNumeral;
    var head, close := EndHead(nonce), CLOSE + tail;
    var b0 := p + |head|;
    assert line[p..][|head|..] == line[b0..];
    HeadLeaves(line, p, head);
    NumberTaken(line, b0, ":", block, m.block, rc + (":" + (m.flags + (":" + (m.pipefail + close)))));
    var r0 := b0 + |block| + 1;
    NumberTaken(line, r0, ":", rc, m.rc, m.flags + (":" + (m.pipefail + close)));
    var f0 := r0 + |rc| + 1;
    FieldAt(line, f0, m.flags, ":", m.pipefail + close, Flag());
    FieldAt(line, f0 + |m.flags| + 1, m.pipefail, CLOSE, tail, Lower());
  }

  // --- Sentinels anywhere in a line ---

  ghost predicate BeginsAt(nonce: string, line: string, p: nat) {
    p < |line| && exists i :: IsBegin(nonce, line[p..], i)
  }

  ghost predicate EndsAt(nonce: string, line: string, p: nat) {
    p < |line| && exists m :: IsEnd(nonce, line[p..], m)
  }

  /** The first begin sentinel of a line is the one that counts. */
  lemma {:induction false} BeginSearchIs(nonce: string, line: string, from: nat)
    ensures match SearchBegin(nonce, line, from)
            case None => forall p: nat :: p >= from ==> !BeginsAt(nonce, line, p)
            case Some(i) => exists p: nat :: p >= from && BeginsAt(nonce, line, p) && IsBegin(nonce, line[p..], i)
                                             && forall q: nat :: from <= q < p ==> !BeginsAt(nonce, line, q)
    decreases |line| - from
  {
    hide BeginAt, IsBegin;
    if from < |line| {
      if BeginAt(nonce, line, from).Some? {
        BeginMeans(nonce, line, from, BeginAt(nonce, line, from).value);
        assert BeginsAt(nonce, line, from);
      } else {
        NoBegin(nonce, line, from);
        BeginSearchIs(nonce, line, from + 1);
      }
    }
  }

  lemma NoBegin(nonce: string, line: string, p: nat)
    requires p < |line| && BeginAt(nonce, line, p).None?
    ensures !BeginsAt(nonce, line, p)
  {
    hide BeginAt, IsBegin;
    forall i ensures !IsBegin(nonce, line[p..], i) {
      BeginMeans(nonce, line, p, i);
    }
  }

  /** And so is the first end sentinel. */
  lemma {:induction false} EndSearchIs(nonce: string, line: string, from: nat)
    ensures match SearchEnd(nonce, line, from)
            case None => forall p: nat :: p >= from ==> !EndsAt(nonce, line, p)
            case Some(m) => exists p: nat :: p >= from && EndsAt(nonce, line, p) && IsEnd(nonce, line[p..], m)
                                             && forall q: nat :: from <= q < p ==> !EndsAt(nonce, line, q)
    decreases |line| - from
  {
    hide EndAt, IsEnd;
    if from < |line| {
      if EndAt(nonce, line, from).Some? {
        EndMeans(nonce, line, from, EndAt(nonce, line, from).value);
        assert EndsAt(nonce, line, from);
      } else {
        NoEnd(nonce, line, from);
        EndSearchIs(nonce, line, from + 1);
      }
    }
  }

  lemma NoEnd(nonce: string, line: string, p: nat)
    requires p < |line| && EndAt(nonce, line, p).None?
    ensures !EndsAt(nonce, line, p)
  {
    hide EndAt, IsEnd;
    forall m ensures !IsEnd(nonce, line[p..], m) {
      EndMeans(nonce, line, p, m);
    }
  }

  // --- What the reader makes of any lines ---

  predicate Starts(nonce: string, line: string, i: nat) {
    SearchBegin(nonce, line, 0) == Some(i)
  }

  predicate Finishes(nonce: string, line: string, m: Mark) {
    SearchBegin(nonce, line, 0).None? && SearchEnd(nonce, line, 0) == Some(m)
  }

  /** Block `i` is being read above line `k`: it began last, and only output stands in between. */
  ghost predicate OpenAbove(nonce: string, lines: seq<string>, k: nat, i: nat) {
    k <= |lines| && exists j :: 0 <= j < k && Starts(nonce, lines[j], i)
                                && forall q :: j < q < k ==> QuietLine(nonce, lines[q])
  }

  /** The reader stops at this line: the end of a block that is not there, or output of one. */
  ghost predicate Breaks(nonce: string, n: nat, lines: seq<string>, k: nat) {
    k < |lines|
    && ((exists m :: Finishes(nonce, lines[k], m) && m.block >= n)
        || (QuietLine(nonce, lines[k]) && exists i: nat :: i >= n && OpenAbove(nonce, lines, k, i)))
  }

  /** The output lines below a block's begin sentinel, up to the next sentinel of any kind, as often as
      it begins. */
  ghost function Said(nonce: string, lines: seq<string>, i: nat): string {
    if lines == [] then ""
    else
      var k := |lines| - 1;
      Said(nonce, lines[..k], i)
      + if QuietLine(nonce, lines[k]) && OpenAbove(nonce, lines, k, i) then lines[k] else ""
  }

  predicate EndsOn(nonce: string, lines: seq<string>, k: nat, m: Mark) {
    k < |lines| && Finishes(nonce, lines[k], m)
  }

  /** The block's last end sentinel. */
  ghost predicate IsLastEnd(nonce: string, lines: seq<string>, k: nat, m: Mark) {
    EndsOn(nonce, lines, k, m)
    && forall q: nat, other :: q > k && EndsOn(nonce, lines, q, other) ==> other.block != m.block
  }

  /** What is known of a block: its output, whether it ended, and what its last end sentinel carries. */
  ghost predicate IsKnown(nonce: string, lines: seq<string>, i: nat, o: Outcome) {
    && o.stdout == Said(nonce, lines, i)
    && (o.reached <==> exists k: nat, m :: EndsOn(nonce, lines, k, m) && m.block == i)
    && (forall k: nat, m :: IsLastEnd(nonce, lines, k, m) && m.block == i ==>
          o.rc == Some(m.rc) && o.flags == m.flags && o.pipefail == m.pipefail)
    && (!o.reached ==> o.rc.None? && o.flags == "" && o.pipefail == "")
  }

  ghost predicate IsRead(nonce: string, n: nat, lines: seq<string>, st: State) {
    && !st.dead && |st.outcomes| == n
    && (forall i: nat :: st.current == Some(i) <==> OpenAbove(nonce, lines, |lines|, i))
    && (forall i :: 0 <= i < n ==> IsKnown(nonce, lines, i, st.outcomes[i]))
  }

  /** One more line leaves what is above it. */
  lemma OpenStill(nonce: string, lines: seq<string>, line: string, k: nat, i: nat)
    requires k <= |lines|
    ensures OpenAbove(nonce, lines + [line], k, i) <==> OpenAbove(nonce, lines, k, i)
  {
    hide Starts, QuietLine;
    if OpenAbove(nonce, lines + [line], k, i) {
      var j :| 0 <= j < k && Starts(nonce, (lines + [line])[j], i)
               && forall q :: j < q < k ==> QuietLine(nonce, (lines + [line])[q]);
      assert Starts(nonce, lines[j], i);
      assert forall q :: j < q < k ==> (lines + [line])[q] == lines[q];
    }
    if OpenAbove(nonce, lines, k, i) {
      var j :| 0 <= j < k && Starts(nonce, lines[j], i) && forall q :: j < q < k ==> QuietLine(nonce, lines[q]);
      assert Starts(nonce, (lines + [line])[j], i);
      assert forall q :: j < q < k ==> (lines + [line])[q] == lines[q];
    }
  }

  /** Which block is being read below a line. */
  lemma OpenBelow(nonce: string, lines: seq<string>, line: string, i: nat)
    ensures OpenAbove(nonce, lines + [line], |lines| + 1, i) <==>
            Starts(nonce, line, i) || (QuietLine(nonce, line) && OpenAbove(nonce, lines, |lines|, i))
  {
    hide Starts, QuietLine;
    var more, n := lines + [line], |lines|;
    assert more[n] == line;
    OpenStill(nonce, lines, line, n, i);
    if OpenAbove(nonce, more, n + 1, i) {
      var j :| 0 <= j < n + 1 && Starts(nonce, more[j], i) && forall q :: j < q < n + 1 ==> QuietLine(nonce, more[q]);
      assert j < n ==> QuietLine(nonce, more[n]);
    }
    if QuietLine(nonce, line) && OpenAbove(nonce, more, n, i) {
      var j :| 0 <= j < n && Starts(nonce, more[j], i) && forall q :: j < q < n ==> QuietLine(nonce, more[q]);
      assert Starts(nonce, more[j], i);
    }
  }

  lemma SaidMore(nonce: string, lines: seq<string>, line: string, i: nat)
    ensures Said(nonce, lines + [line], i) ==
            Said(nonce, lines, i)
            + if QuietLine(nonce, line) && OpenAbove(nonce, lines, |lines|, i) then line else ""
  {
    hide OpenAbove, QuietLine;
    assert (lines + [line])[..|lines|] == lines;
    OpenStill(nonce, lines, line, |lines|, i);
  }

  lemma EndsMore(nonce: string, lines: seq<string>, line: string, k: nat, m: Mark)
    ensures EndsOn(nonce, lines + [line], k, m) <==>
            EndsOn(nonce, lines, k, m) || (k == |lines| && Finishes(nonce, line, m))
  {
    hide Finishes;
  }

  /** A line without an end sentinel of the block leaves what is known of its end. */
  lemma EndStays(nonce: string, lines: seq<string>, line: string, i: nat, o: Outcome)
    requires IsKnown(nonce, lines, i, o) && forall m :: Finishes(nonce, line, m) ==> m.block != i
    ensures IsKnown(nonce, lines + [line], i, o.(stdout := Said(nonce, lines + [line], i)))
  {
    hide Finishes, Said, EndsOn;
    forall k: nat, m ensures EndsOn(nonce, lines + [line], k, m) <==>
                             EndsOn(nonce, lines, k, m) || (k == |lines| && Finishes(nonce, line, m))
    {
      EndsMore(nonce, lines, line, k, m);
    }
    forall k: nat, m | IsLastEnd(nonce, lines + [line], k, m) && m.block == i
      ensures IsLastEnd(nonce, lines, k, m)
    {
    }
  }

  /** The line of the block's end sentinel. */
  lemma EndComes(nonce: string, lines: seq<string>, line: string, m: Mark, o: Outcome)
    requires IsKnown(nonce, lines, m.block, o) && Finishes(nonce, line, m)
    ensures IsKnown(nonce, lines + [line], m.block,
                    o.(reached := true, rc := Some(m.rc), flags := m.flags, pipefail := m.pipefail))
  {
    hide Said, EndsOn;
    var more, n := lines + [line], |lines|;
    forall k: nat, other ensures EndsOn(nonce, more, k, other) <==>
                                 EndsOn(nonce, lines, k, other) || (k == n && Finishes(nonce, line, other))
    {
      EndsMore(nonce, lines, line, k, other);
    }
    assert EndsOn(nonce, more, n, m);
    SaidMore(nonce, lines, line, m.block);
    forall k: nat, other | IsLastEnd(nonce, more, k, other) && other.block == m.block
      ensures other == m
    {
      assert k >= n;
      assert !EndsOn(nonce, lines, k, other) by { NoneBelow(nonce, lines, k, other); }
    }
  }

  lemma NoneBelow(nonce: string, lines: seq<string>, k: nat, m: Mark)
    requires k >= |lines|
    ensures !EndsOn(nonce, lines, k, m)
  {
  }

  lemma ReadOneMore(nonce: string, n: nat, lines: seq<string>, line: string, st: State)
    requires IsRead(nonce, n, lines, st) && !Breaks(nonce, n, lines + [line], |lines|)
    ensures IsRead(nonce, n, lines + [line], ReadLine(nonce, st, line))
  {
    hide OpenAbove, IsKnown, Said;
    var more, now := lines + [line], ReadLine(nonce, st, line);
    forall i: nat
      ensures OpenAbove(nonce, more, |more|, i) <==>
              Starts(nonce, line, i) || (QuietLine(nonce, line) && OpenAbove(nonce, lines, |lines|, i))
      ensures OpenAbove(nonce, more, |lines|, i) <==> OpenAbove(nonce, lines, |lines|, i)
    {
      OpenBelow(nonce, lines, line, i);
      OpenStill(nonce, lines, line, |lines|, i);
    }
    NotBroken(nonce, n, lines, line, st);
    forall i | 0 <= i < n
      ensures IsKnown(nonce, more, i, now.outcomes[i])
    {
      KnownStill(nonce, n, lines, line, st, i);
    }
  }

  lemma NotBroken(nonce: string, n: nat, lines: seq<string>, line: string, st: State)
    requires IsRead(nonce, n, lines, st) && !Breaks(nonce, n, lines + [line], |lines|)
    ensures forall m :: Finishes(nonce, line, m) ==> m.block < n
    ensures QuietLine(nonce, line) && st.current.Some? ==> st.current.value < n
  {
    hide OpenAbove, IsKnown, Finishes, QuietLine;
    assert (lines + [line])[|lines|] == line;
    if st.current.Some? {
      OpenStill(nonce, lines, line, |lines|, st.current.value);
    }
  }

  lemma KnownStill(nonce: string, n: nat, lines: seq<string>, line: string, st: State, i: nat)
    requires IsRead(nonce, n, lines, st) && i < n
    requires forall m :: Finishes(nonce, line, m) ==> m.block < n
    requires QuietLine(nonce, line) && st.current.Some? ==> st.current.value < n
    ensures var now := ReadLine(nonce, st, line);
            |now.outcomes| == n && IsKnown(nonce, lines + [line], i, now.outcomes[i])
  {
    hide OpenAbove, IsKnown, Said, SearchBegin, SearchEnd;
    var o := st.outcomes[i];
    SaidMore(nonce, lines, line, i);
    assert OpenAbove(nonce, lines, |lines|, i) <==> st.current == Some(i);
    assert o.stdout + "" == o.stdout;
    if exists m :: Finishes(nonce, line, m) && m.block == i {
      var m :| Finishes(nonce, line, m) && m.block == i;
      EndComes(nonce, lines, line, m, o);
    } else {
      EndStays(nonce, lines, line, i, o);
      StdoutIs(nonce, lines, i, o);
    }
  }

  lemma StdoutIs(nonce: string, lines: seq<string>, i: nat, o: Outcome)
    requires IsKnown(nonce, lines, i, o)
    ensures o.stdout == Said(nonce, lines, i)
  {
  }

  lemma NothingRead(nonce: string, n: nat)
    ensures IsRead(nonce, n, [], Unread(n))
  {
  }

  lemma EarlierBreak(nonce: string, n: nat, lines: seq<string>, k: nat)
    requires lines != [] && k < |lines| - 1
    ensures Breaks(nonce, n, lines, k) <==> Breaks(nonce, n, lines[..|lines| - 1], k)
  {
    hide OpenAbove, Finishes, QuietLine;
    var init, last := lines[..|lines| - 1], lines[|lines| - 1];
    assert lines == init + [last] && init[k] == lines[k];
    forall i: nat ensures OpenAbove(nonce, lines, k, i) <==> OpenAbove(nonce, init, k, i) {
      OpenStill(nonce, init, last, k, i);
    }
  }

  /** Any lines at all that do not stop the reader: the block it is in, and of every block its output,
      whether it ended, and with what. */
  lemma {:induction false} LinesAreRead(nonce: string, n: nat, lines: seq<string>)
    requires forall k: nat :: !Breaks(nonce, n, lines, k)
    ensures IsRead(nonce, n, lines, ReadLines(nonce, Unread(n), lines))
  {
    hide IsRead, ReadLine, ReadLines, Breaks;
    if lines == [] {
      NothingRead(nonce, n);
      assert ReadLines(nonce, Unread(n), []) == Unread(n) by { NoLinesRead(nonce, Unread(n)); }
    } else {
      var init, last := lines[..|lines| - 1], lines[|lines| - 1];
      assert lines == init + [last];
      forall k: nat ensures !Breaks(nonce, n, init, k) {
        if k < |init| {
          EarlierBreak(nonce, n, lines, k);
        } else {
          NoBreak(nonce, n, init, k);
        }
      }
      LinesAreRead(nonce, n, init);
      var st := ReadLines(nonce, Unread(n), init);
      ReadOneMore(nonce, n, init, last, st);
      ReadAppend(nonce, Unread(n), init, [last]);
      ReadOne(nonce, st, last);
    }
  }

  lemma NoLinesRead(nonce: string, st: State)
    ensures ReadLines(nonce, st, []) == st
  {
  }

  lemma NoBreak(nonce: string, n: nat, lines: seq<string>, k: nat)
    requires k >= |lines|
    ensures !Breaks(nonce, n, lines, k)
  {
  }

  /** A line that stops the reader: what is known is what the lines above it say. */
  lemma StopsThere(nonce: string, n: nat, lines: seq<string>, k: nat)
    requires Breaks(nonce, n, lines, k) && forall j: nat :: j < k ==> !Breaks(nonce, n, lines, j)
    ensures var st := ReadLines(nonce, Unread(n), lines[..k]);
            && IsRead(nonce, n, lines[..k], st)
            && ReadLines(nonce, Unread(n), lines) == st.(dead := true)
  {
    hide IsRead, ReadLine, ReadLines, Breaks;
    BreakIsIn(nonce, n, lines, k);
    NoBreakAbove(nonce, n, lines, k);
    LinesAreRead(nonce, n, lines[..k]);
    var st, rest := ReadLines(nonce, Unread(n), lines[..k]), lines[k + 1..];
    StopsOn(nonce, n, lines, k, st);
    assert lines == lines[..k] + ([lines[k]] + rest);
    ReadAppend(nonce, Unread(n), lines[..k], [lines[k]] + rest);
    ReadAppend(nonce, st, [lines[k]], rest);
    ReadOne(nonce, st, lines[k]);
    DeadStaysDead(nonce, st.(dead := true), rest);
  }

  lemma BreakIsIn(nonce: string, n: nat, lines: seq<string>, k: nat)
    requires Breaks(nonce, n, lines, k)
    ensures k < |lines|
  {
  }

  lemma StopsOn(nonce: string, n: nat, lines: seq<string>, k: nat, st: State)
    requires k < |lines| && Breaks(nonce, n, lines, k) && IsRead(nonce, n, lines[..k], st)
    ensures ReadLine(nonce, st, lines[k]) == st.(dead := true)
  {
    hide OpenAbove, IsKnown, SearchBegin, SearchEnd;
    if QuietLine(nonce, lines[k]) {
      var i: nat :| i >= n && OpenAbove(nonce, lines, k, i);
      OpenInPrefix(nonce, lines, k, k, i);
      assert |lines[..k]| == k && st.current == Some(i);
    } else {
      var m :| Finishes(nonce, lines[k], m) && m.block >= n;
    }
  }

  lemma OpenInPrefix(nonce: string, lines: seq<string>, m: nat, k: nat, i: nat)
    requires k <= m <= |lines|
    ensures OpenAbove(nonce, lines, k, i) <==> OpenAbove(nonce, lines[..m], k, i)
  {
    hide Starts, QuietLine;
    assert forall q :: 0 <= q < k ==> lines[..m][q] == lines[q];
    if OpenAbove(nonce, lines, k, i) {
      var j :| 0 <= j < k && Starts(nonce, lines[j], i) && forall q :: j < q < k ==> QuietLine(nonce, lines[q]);
      assert Starts(nonce, lines[..m][j], i);
    }
    if OpenAbove(nonce, lines[..m], k, i) {
      var j :| 0 <= j < k && Starts(nonce, lines[..m][j], i)
               && forall q :: j < q < k ==> QuietLine(nonce, lines[..m][q]);
      assert Starts(nonce, lines[j], i);
      assert forall q :: j < q < k ==> QuietLine(nonce, lines[q]);
    }
  }

  lemma NoBreakAbove(nonce: string, n: nat, lines: seq<string>, k: nat)
    requires k <= |lines| && forall j: nat :: j < k ==> !Breaks(nonce, n, lines, j)
    ensures forall j: nat :: !Breaks(nonce, n, lines[..k], j)
  {
    hide OpenAbove, Finishes, QuietLine;
    forall j: nat | j < k
      ensures !Breaks(nonce, n, lines[..k], j)
    {
      assert lines[..k][j] == lines[j];
      forall i: nat ensures OpenAbove(nonce, lines, j, i) <==> OpenAbove(nonce, lines[..k], j, i) {
        OpenInPrefix(nonce, lines, k, j, i);
      }
      assert !Breaks(nonce, n, lines, j);
    }
  }
}
