/** What the reader makes of the stream the script prints, whole or cut short anywhere. */
module StreamFacts {
  import opened Wrappers
  import opened Numbers
  import opened Stream

  /** A nonce is hexadecimal: it holds nothing that ends a sentinel or a field. */
  predicate CleanNonce(nonce: string) {
    '@' !in nonce && ':' !in nonce && '\n' !in nonce
  }

  predicate CleanRan(b: Ran) {
    && (forall k :: 0 <= k < |b.flags| ==> Flag()(b.flags[k]) && b.flags[k] != '\n')
    && (forall k :: 0 <= k < |b.pipefail| ==> Lower()(b.pipefail[k]))
  }

  predicate QuietLine(nonce: string, line: string) {
    SearchBegin(nonce, line, 0).None? && SearchEnd(nonce, line, 0).None?
  }

  predicate QuietLines(nonce: string, lines: seq<string>) {
    forall k :: 0 <= k < |lines| ==> QuietLine(nonce, lines[k])
  }

  /** No line of the block's output holds a sentinel. */
  predicate Quiet(nonce: string, b: Ran) {
    QuietLines(nonce, Lines(b.output + "\n"))
  }

  // --- Counting the at signs: a sentinel has four ---

  function Ats(s: string): nat {
    if s == "" then 0 else (if s[0] == '@' then 1 else 0) + Ats(s[1..])
  }

  lemma {:induction false} AtsAppend(a: string, b: string)
    ensures Ats(a + b) == Ats(a) + Ats(b)
  {
    if a == "" {
      assert a + b == b;
    } else {
      AtsAppend(a[1..], b);
      assert (a + b)[1..] == a[1..] + b;
    }
  }

  lemma {:induction false} NoAts(s: string)
    requires '@' !in s
    ensures Ats(s) == 0
  {
    if s != "" {
      NoAts(s[1..]);
    }
  }

  lemma AtsSplit(s: string, k: nat)
    requires k <= |s|
    ensures Ats(s) == Ats(s[..k]) + Ats(s[k..])
  {
    AtsAppend(s[..k], s[k..]);
    assert s[..k] + s[k..] == s;
  }

  lemma TwoAts(s: string, p: nat)
    requires StartsAt(s, p, CLOSE)
    ensures p + 2 <= |s| && Ats(s[p..]) == 2 + Ats(s[p + 2..])
  {
    var t := s[p..];
    assert t[0] == '@' && t[1] == '@';
    assert t[1..][1..] == s[p + 2..];
  }

  /** Two separate pairs of at signs. */
  lemma FourAts(s: string, p: nat, q: nat)
    requires StartsAt(s, p, CLOSE) && StartsAt(s, q, CLOSE) && p + 2 <= q
    ensures Ats(s[p..]) >= 4
  {
    TwoAts(s, p);
    TwoAts(s, q);
    AtsSplit(s[p + 2..], q - p - 2);
    assert s[p + 2..][q - p - 2..] == s[q..];
  }

  lemma HeadOpens(nonce: string)
    ensures CLOSE <= BeginHead(nonce) && CLOSE <= EndHead(nonce)
    ensures |BeginHead(nonce)| >= 2 && |EndHead(nonce)| >= 2
  {
    assert OPEN[..2] == CLOSE;
    assert BeginHead(nonce)[..2] == OPEN[..2] && EndHead(nonce)[..2] == OPEN[..2];
  }

  lemma PrefixStarts(s: string, p: nat, head: string, part: string)
    requires StartsAt(s, p, head) && part <= head
    ensures StartsAt(s, p, part)
  {
  }

  /** A field that ends in a pair of at signs has that pair after it. */
  lemma ClosedField(line: string, from: nat, member: char -> bool)
    requires TakeField(line, from, member, CLOSE).Some?
    ensures exists q :: from <= q && StartsAt(line, q, CLOSE)
  {
    hide StartsAt;
    var q := RunEnd(line, from, member);
    assert StartsAt(line, q, CLOSE);
  }

  lemma BeginHasFour(nonce: string, line: string, p: nat)
    requires BeginAt(nonce, line, p).Some?
    ensures Ats(line[p..]) >= 4
  {
    hide TakeField, StartsAt, BeginHead;
    var head := BeginHead(nonce);
    HeadOpens(nonce);
    PrefixStarts(line, p, head, CLOSE);
    ClosedField(line, p + |head|, Digit());
    var q :| p + |head| <= q && StartsAt(line, q, CLOSE);
    FourAts(line, p, q);
  }

  lemma EndHasFour(nonce: string, line: string, p: nat)
    requires EndAt(nonce, line, p).Some?
    ensures Ats(line[p..]) >= 4
  {
    hide TakeField, TakeNumber, StartsAt, EndHead;
    var head := EndHead(nonce);
    HeadOpens(nonce);
    PrefixStarts(line, p, head, CLOSE);
    var r0 := TakeNumber(line, p + |head|, ":").value.1;
    var f0 := TakeNumber(line, r0, ":").value.1;
    var p0 := TakeField(line, f0, Flag(), ":").value.1;
    ClosedField(line, p0, Lower());
    var q :| p0 <= q && StartsAt(line, q, CLOSE);
    FourAts(line, p, q);
  }

  /** With fewer at signs from here on there is no sentinel. */
  lemma {:induction false} FewAtsQuiet(nonce: string, line: string, from: nat)
    requires from <= |line| && Ats(line[from..]) < 4
    ensures SearchBegin(nonce, line, from).None? && SearchEnd(nonce, line, from).None?
    decreases |line| - from
  {
    hide BeginAt, EndAt;
    if from < |line| {
      AtsSplit(line[from..], 1);
      assert line[from..][1..] == line[from + 1..];
      FewAtsQuiet(nonce, line, from + 1);
      if BeginAt(nonce, line, from).Some? {
        BeginHasFour(nonce, line, from);
      }
      if EndAt(nonce, line, from).Some? {
        EndHasFour(nonce, line, from);
      }
    }
  }

  // --- The sentinels as they are printed ---

  lemma {:induction false} RunEndIs(s: string, i: nat, j: nat, member: char -> bool)
    requires i <= j <= |s| && forall k :: i <= k < j ==> member(s[k])
    requires j < |s| ==> !member(s[j])
    ensures RunEnd(s, i, member) == j
    decreases j - i
  {
    if i < j {
      RunEndIs(s, i + 1, j, member);
    }
  }

  /** A run of members between what stands before it and what stops it. */
  lemma RunBetween(a: string, run: string, b: string, member: char -> bool)
    requires (forall k :: 0 <= k < |run| ==> member(run[k])) && b != "" && !member(b[0])
    ensures RunEnd(a + run + b, |a|, member) == |a| + |run|
    ensures (a + run + b)[|a|..|a| + |run|] == run
    ensures (a + run + b)[|a| + |run|..] == b
  {
    RunEndIs(a + run + b, |a|, |a| + |run|, member);
  }

  lemma BeginIsRead(nonce: string, i: nat, tail: string)
    ensures BeginAt(nonce, Begin(nonce, i) + tail, 0) == Some(i)
  {
    hide Digits, BeginHead, Value, AllDigits, TakeNumber, StartsAt;
    var head, d := BeginHead(nonce), Digits(i);
    var line := Begin(nonce, i) + tail;
    assert line == head + (d + (CLOSE + tail));
    HeadStarts(line, head);
    assert line[|head|..] == d + (CLOSE + tail);
    NumberAt(line, |head|, i, CLOSE, tail);
  }

  lemma NumberAt(line: string, from: nat, n: nat, stop: string, rest: string)
    requires from <= |line| && line[from..] == Digits(n) + (stop + rest) && stop != "" && !IsDigit(stop[0])
    ensures var next := from + |Digits(n)| + |stop|;
            TakeNumber(line, from, stop) == Some((n, next)) && next <= |line| && line[next..] == rest
  {
    hide Digits, Value, TakeField;
    DigitsAre(n);
    ValueOfDigits(n);
    FieldAt(line, from, Digits(n), stop, rest, Digit());
  }

  lemma DigitsAre(n: nat)
    ensures Digits(n) != "" && forall k :: 0 <= k < |Digits(n)| ==> Digit()(Digits(n)[k])
    ensures AllDigits(Digits(n))
  {
  }

  lemma Push(run: string, stop: string, inner: string, rest: string)
    ensures (run + (stop + inner)) + rest == run + (stop + (inner + rest))
  {
  }

  /** A field that starts at `from`, up to what stops it. */
  lemma FieldAt(line: string, from: nat, run: string, stop: string, rest: string, member: char -> bool)
    requires from <= |line| && line[from..] == run + (stop + rest) && stop != "" && !member(stop[0])
    requires forall k :: 0 <= k < |run| ==> member(run[k])
    ensures var next := from + |run| + |stop|;
            && TakeField(line, from, member, stop) == Some((run, next))
            && next <= |line| && line[next..] == rest
  {
    RunBetween(line[..from], run, stop + rest, member);
    assert line == line[..from] + run + (stop + rest);
    var to := from + |run|;
    assert line[to..] == stop + rest;
    assert line[to..][|stop|..] == rest;
  }

  lemma EndIsRead(nonce: string, i: nat, b: Ran, tail: string)
    requires CleanRan(b)
    ensures EndAt(nonce, End(nonce, i, b) + tail, 0) == Some(Mark(i, b.rc, b.flags, b.pipefail))
  {
    hide Digits, EndHead, TakeNumber, TakeField, StartsAt, End;
    var head, d, rc, close := EndHead(nonce), Digits(i), Digits(b.rc), CLOSE + tail;
    var line := End(nonce, i, b) + tail;
    EndUnfolds(nonce, i, b, tail);
    HeadStarts(line, head);
    var r0 := |head| + |d| + 1;
    var f0 := r0 + |rc| + 1;
    NumberAt(line, |head|, i, ":", rc + (":" + (b.flags + (":" + (b.pipefail + close)))));
    NumberAt(line, r0, b.rc, ":", b.flags + (":" + (b.pipefail + close)));
    FieldAt(line, f0, b.flags, ":", b.pipefail + close, Flag());
    FieldAt(line, f0 + |b.flags| + 1, b.pipefail, CLOSE, tail, Lower());
  }

  lemma HeadStarts(line: string, head: string)
    requires head <= line
    ensures StartsAt(line, 0, head)
  {
    assert line[0..] == line;
  }

  lemma EndUnfolds(nonce: string, i: nat, b: Ran, tail: string)
    ensures var head, d, rc := EndHead(nonce), Digits(i), Digits(b.rc);
            var line := End(nonce, i, b) + tail;
            && head <= line
            && line[|head|..] == d + (":" + (rc + (":" + (b.flags + (":" + (b.pipefail + (CLOSE + tail)))))))
  {
    hide Digits, EndHead;
    var head, d, rc, close := EndHead(nonce), Digits(i), Digits(b.rc), CLOSE + tail;
    var line := End(nonce, i, b) + tail;
    var fields := EndFields(i, b);
    assert line == head + (fields + close);
    Push(d, ":", rc + (":" + (b.flags + (":" + b.pipefail))), close);
    Push(rc, ":", b.flags + (":" + b.pipefail), close);
    Push(b.flags, ":", b.pipefail, close);
  }

  lemma BeginSearched(nonce: string, i: nat, tail: string)
    ensures SearchBegin(nonce, Begin(nonce, i) + tail, 0) == Some(i)
  {
    hide BeginAt, Begin;
    BeginIsRead(nonce, i, tail);
    BeginNotEmpty(nonce, i);
  }

  lemma BeginNotEmpty(nonce: string, i: nat)
    ensures Begin(nonce, i) != ""
  {
  }

  /** How many at signs a printed sentinel has: four, the last of them at its end. */
  lemma SentinelAts(nonce: string, i: nat, b: Ran)
    requires CleanNonce(nonce) && CleanRan(b)
    ensures Ats(Begin(nonce, i)) == 4 && Ats(End(nonce, i, b)) == 4
  {
    hide Ats, Digits, CleanRan;
    DigitsAre(i);
    NoneOf(Digits(i));
    EndFieldsClean(i, b);
    Bracketed(nonce + ":BEGIN:" + Digits(i));
    Bracketed(nonce + ":END:" + EndFields(i, b));
    assert Begin(nonce, i) == OPEN + (nonce + ":BEGIN:" + Digits(i)) + CLOSE;
    assert End(nonce, i, b) == OPEN + (nonce + ":END:" + EndFields(i, b)) + CLOSE;
  }

  lemma EndFieldsClean(i: nat, b: Ran)
    requires CleanRan(b)
    ensures '@' !in EndFields(i, b) && '\n' !in EndFields(i, b)
  {
    hide Digits;
    DigitsAre(i);
    DigitsAre(b.rc);
    NoneOf(Digits(i));
    NoneOf(Digits(b.rc));
    assert '@' !in b.flags && '\n' !in b.flags;
    assert '@' !in b.pipefail && '\n' !in b.pipefail;
  }

  lemma NoneOf(s: string)
    requires forall k :: 0 <= k < |s| ==> Digit()(s[k])
    ensures '@' !in s && '\n' !in s && ':' !in s
  {
  }

  lemma Bracketed(inner: string)
    requires '@' !in inner
    ensures Ats(OPEN + inner + CLOSE) == 4
  {
    NoAts(inner);
    assert Ats(OPEN) == 2 by {
      assert OPEN == CLOSE + "DOCEX:";
      NoAts("DOCEX:");
      AtsAppend(CLOSE, "DOCEX:");
      CloseAts();
    }
    CloseAts();
    AtsAppend(OPEN, inner);
    AtsAppend(OPEN + inner, CLOSE);
  }

  lemma CloseAts()
    ensures Ats(CLOSE) == 2
  {
    assert CLOSE[1..] == "@" && "@"[1..] == "";
  }

  lemma OneAt()
    ensures Ats("@") == 1
  {
    assert "@"[1..] == "";
  }

  /** A sentinel cut short holds none. */
  lemma CutSentinelIsQuiet(nonce: string, s: string, k: nat)
    requires Ats(s) == 4 && s != "" && s[|s| - 1] == '@' && k < |s|
    ensures QuietLine(nonce, s[..k])
  {
    hide Ats, SearchBegin, SearchEnd;
    AtsSplit(s, k);
    AtsSplit(s[k..], |s| - k - 1);
    assert s[k..][|s| - k - 1..] == "@";
    OneAt();
    assert s[..k][0..] == s[..k];
    FewAtsQuiet(nonce, s[..k], 0);
  }

  /** No begin sentinel stands in an end sentinel's line. */
  lemma EndHasNoBegin(nonce: string, i: nat, b: Ran, tail: string)
    requires CleanNonce(nonce) && CleanRan(b) && '@' !in tail
    ensures SearchBegin(nonce, End(nonce, i, b) + tail, 0).None?
  {
    hide BeginAt, End, CleanRan;
    var line := End(nonce, i, b) + tail;
    EndStarts(nonce, i, b, tail);
    SentinelAts(nonce, i, b);
    AtsAppend(End(nonce, i, b), tail);
    NoAts(tail);
    AtsSplit(line, 1);
    assert Ats(line[..1]) == 1 by { assert line[..1] == "@"; assert "@"[1..] == ""; }
    FewAtsQuiet(nonce, line, 1);
  }

  lemma EndStarts(nonce: string, i: nat, b: Ran, tail: string)
    ensures var line := End(nonce, i, b) + tail;
            line != "" && line[0] == '@' && BeginAt(nonce, line, 0).None?
  {
    var line := End(nonce, i, b) + tail;
    var at := |OPEN + nonce| + 1;
    assert line[0] == OPEN[0];
    assert line[at] == 'E';
    assert BeginHead(nonce)[at] == 'B';
    assert line[0..] == line;
  }

  lemma EndSearched(nonce: string, i: nat, b: Ran, tail: string)
    requires CleanNonce(nonce) && CleanRan(b) && '@' !in tail
    ensures SearchBegin(nonce, End(nonce, i, b) + tail, 0).None?
    ensures SearchEnd(nonce, End(nonce, i, b) + tail, 0) == Some(Mark(i, b.rc, b.flags, b.pipefail))
  {
    hide EndAt, End, CleanRan;
    EndHasNoBegin(nonce, i, b, tail);
    EndIsRead(nonce, i, b, tail);
    EndStarts(nonce, i, b, tail);
  }
}
