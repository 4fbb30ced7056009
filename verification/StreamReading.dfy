/** Reading the stream a page's script prints: the whole of it gives every block's outcome back,
    and any prefix of it gives an initial segment of them. */
module StreamReading {
  import opened Wrappers
  import opened Stream
  import opened StreamFacts
  import opened Sequences

  // --- Lines ---

  predicate Ended(text: string) {
    text == "" || text[|text| - 1] == '\n'
  }

  lemma {:induction false} LineEndIs(text: string, n: nat)
    requires 1 <= n <= |text| && forall k :: 0 <= k < n - 1 ==> text[k] != '\n'
    requires n < |text| ==> text[n - 1] == '\n'
    ensures LineEnd(text) == n
  {
    if n > 1 {
      LineEndIs(text[1..], n - 1);
    }
  }

  /** One line: a line break can only be its last character. */
  predicate IsLine(line: string) {
    line != "" && forall k :: 0 <= k < |line| - 1 ==> line[k] != '\n'
  }

  lemma FirstLine(line: string, rest: string)
    requires IsLine(line) && (rest == "" || Ended(line))
    ensures LineEnd(line + rest) == |line| && Lines(line + rest) == [line] + Lines(rest)
  {
    hide Lines;
    var text := line + rest;
    LineEndIs(text, |line|);
    LinesUnfold(text);
    assert text[..|line|] == line && text[|line|..] == rest;
  }

  lemma LinesUnfold(text: string)
    requires text != ""
    ensures var n := LineEnd(text); Lines(text) == [text[..n]] + Lines(text[n..])
  {
  }

  /** A text's first line and what follows it. */
  lemma CutLine(text: string) returns (line: string, rest: string)
    requires text != ""
    ensures text == line + rest && IsLine(line) && (rest == "" || Ended(line))
    ensures Lines(text) == [line] + Lines(rest) && |rest| < |text|
  {
    hide Lines;
    var n := LineEnd(text);
    line, rest := text[..n], text[n..];
    LinesUnfold(text);
  }

  lemma {:induction false} LinesAppend(a: string, b: string)
    requires Ended(a)
    ensures Lines(a + b) == Lines(a) + Lines(b)
    decreases |a|
  {
    hide Lines, IsLine;
    if a == "" {
      NoLines();
      assert a + b == b && [] + Lines(b) == Lines(b);
    } else {
      var line, rest := CutLine(a);
      EndedParts(line, rest);
      LinesAppend(rest, b);
      Assoc(line, rest, b);
      FirstLine(line, rest + b);
      Assoc([line], Lines(rest), Lines(b));
    }
  }

  lemma EndedParts(line: string, rest: string)
    requires line != "" && Ended(line + rest) && (rest == "" || Ended(line))
    ensures Ended(line) && Ended(rest)
  {
  }

  lemma OneLine(s: string)
    requires '\n' !in s
    ensures Lines(s + "\n") == [s + "\n"]
    ensures s != "" ==> Lines(s) == [s]
  {
    hide Lines;
    NoLines();
    FirstLine(s + "\n", "");
    assert (s + "\n") + "" == s + "\n" && s + "" == s;
    if s != "" {
      FirstLine(s, "");
    }
  }

  lemma {:induction false} ReadAppend(nonce: string, st: State, a: seq<string>, b: seq<string>)
    ensures ReadLines(nonce, st, a + b) == ReadLines(nonce, ReadLines(nonce, st, a), b)
    decreases |a|
  {
    hide ReadLine;
    if a == [] {
      assert a + b == b;
    } else {
      ReadAppend(nonce, ReadLine(nonce, st, a[0]), a[1..], b);
      assert (a + b)[1..] == a[1..] + b;
    }
  }

  /** Reading on from an ended part. */
  lemma ReadOn(nonce: string, st: State, a: string, b: string)
    requires Ended(a)
    ensures ReadLines(nonce, st, Lines(a + b)) == ReadLines(nonce, ReadLines(nonce, st, Lines(a)), Lines(b))
  {
    hide ReadLines, Lines;
    LinesAppend(a, b);
    ReadAppend(nonce, st, Lines(a), Lines(b));
  }

  lemma ReadOne(nonce: string, st: State, line: string)
    ensures ReadLines(nonce, st, [line]) == ReadLine(nonce, st, line)
  {
    hide ReadLine;
    assert [line][1..] == [];
    assert ReadLines(nonce, ReadLine(nonce, st, line), []) == ReadLine(nonce, st, line);
  }

  // --- A prefix of a line without sentinels has none ---

  lemma FieldOfPrefix(line: string, k: nat, from: nat, member: char -> bool, stop: string)
    requires k <= |line| && stop != "" && TakeField(line[..k], from, member, stop).Some?
    ensures TakeField(line, from, member, stop) == TakeField(line[..k], from, member, stop)
  {
    hide RunEnd;
    var cut := line[..k];
    var to := RunEnd(cut, from, member);
    assert stop <= cut[to..] && to + |stop| <= k;
    RunOfPrefix(line, k, from, to, member);
    assert cut[from..to] == line[from..to];
    StartOfPrefix(line, k, to, stop);
  }

  lemma RunOfPrefix(line: string, k: nat, from: nat, to: nat, member: char -> bool)
    requires from <= to < k <= |line| && to == RunEnd(line[..k], from, member)
    ensures RunEnd(line, from, member) == to
  {
    hide RunEnd;
    forall j | from <= j < to ensures member(line[j]) {
      assert line[..k][j] == line[j];
    }
    assert line[..k][to] == line[to];
    RunEndIs(line, from, to, member);
  }

  lemma NumberOfPrefix(line: string, k: nat, from: nat, stop: string)
    requires k <= |line| && stop != "" && TakeNumber(line[..k], from, stop).Some?
    ensures TakeNumber(line, from, stop) == TakeNumber(line[..k], from, stop)
  {
    hide TakeField;
    FieldOfPrefix(line, k, from, Digit(), stop);
  }

  lemma StartOfPrefix(line: string, k: nat, p: nat, part: string)
    requires k <= |line| && StartsAt(line[..k], p, part)
    ensures StartsAt(line, p, part)
  {
    assert line[p..][..|part|] == line[..k][p..][..|part|];
  }

  lemma MarksOfPrefix(nonce: string, line: string, k: nat, p: nat)
    requires k <= |line|
    ensures BeginAt(nonce, line[..k], p).Some? ==> BeginAt(nonce, line, p).Some?
    ensures EndAt(nonce, line[..k], p).Some? ==> EndAt(nonce, line, p).Some?
  {
    hide TakeField, TakeNumber, StartsAt, BeginHead, EndHead;
    var cut := line[..k];
    if BeginAt(nonce, cut, p).Some? {
      StartOfPrefix(line, k, p, BeginHead(nonce));
      NumberOfPrefix(line, k, p + |BeginHead(nonce)|, CLOSE);
    }
    if EndAt(nonce, cut, p).Some? {
      var head := EndHead(nonce);
      StartOfPrefix(line, k, p, head);
      NumberOfPrefix(line, k, p + |head|, ":");
      var r0 := TakeNumber(cut, p + |head|, ":").value.1;
      NumberOfPrefix(line, k, r0, ":");
      var f0 := TakeNumber(cut, r0, ":").value.1;
      FieldOfPrefix(line, k, f0, Flag(), ":");
      var p0 := TakeField(cut, f0, Flag(), ":").value.1;
      FieldOfPrefix(line, k, p0, Lower(), CLOSE);
    }
  }

  lemma {:induction false} SearchOfPrefix(nonce: string, line: string, k: nat, from: nat)
    requires k <= |line|
    ensures SearchBegin(nonce, line[..k], from).Some? ==> SearchBegin(nonce, line, from).Some?
    ensures SearchEnd(nonce, line[..k], from).Some? ==> SearchEnd(nonce, line, from).Some?
    decreases |line| - from
  {
    hide BeginAt, EndAt;
    if from < k {
      MarksOfPrefix(nonce, line, k, from);
      SearchOfPrefix(nonce, line, k, from + 1);
    }
  }

  lemma {:induction false} QuietPrefix(nonce: string, text: string, k: nat)
    requires k <= |text| && QuietLines(nonce, Lines(text))
    ensures QuietLines(nonce, Lines(text[..k]))
    decreases |text|
  {
    if k == 0 {
      assert text[..k] == "";
    } else {
      hide QuietLine, QuietLines, Lines, IsLine;
      var line, rest := CutLine(text);
      QuietTail(nonce, line, Lines(rest));
      if k <= |line| {
        PrefixOfLine(line, rest, k);
        QuietCut(nonce, line, k);
        LinesOfCut(line, k);
        QuietOne(nonce, line[..k]);
      } else {
        var cut := rest[..k - |line|];
        PrefixOfLine(line, rest, k);
        FirstLine(line, cut);
        QuietPrefix(nonce, rest, k - |line|);
        QuietCons(nonce, line, Lines(cut));
      }
    }
  }

  lemma PrefixOfLine(line: string, rest: string, k: nat)
    requires k <= |line + rest|
    ensures (line + rest)[..k] == if k <= |line| then line[..k] else line + rest[..k - |line|]
  {
  }

  lemma LinesOfCut(line: string, k: nat)
    requires IsLine(line) && 0 < k <= |line|
    ensures Lines(line[..k]) == [line[..k]]
  {
    hide Lines;
    assert line[..k] + "" == line[..k];
    FirstLine(line[..k], "");
    NoLines();
  }

  lemma NoLines()
    ensures Lines("") == []
  {
  }

  lemma QuietOne(nonce: string, line: string)
    requires QuietLine(nonce, line)
    ensures QuietLines(nonce, [line])
  {
    hide QuietLine;
  }

  lemma QuietCons(nonce: string, line: string, lines: seq<string>)
    requires QuietLine(nonce, line) && QuietLines(nonce, lines)
    ensures QuietLines(nonce, [line] + lines)
  {
    hide QuietLine;
  }

  lemma QuietCut(nonce: string, line: string, k: nat)
    requires k <= |line| && QuietLine(nonce, line)
    ensures QuietLine(nonce, line[..k])
  {
    hide SearchBegin, SearchEnd;
    SearchOfPrefix(nonce, line, k, 0);
  }

  lemma QuietTail(nonce: string, line: string, lines: seq<string>)
    requires QuietLines(nonce, [line] + lines)
    ensures QuietLine(nonce, line) && QuietLines(nonce, lines)
  {
    hide QuietLine;
    assert ([line] + lines)[0] == line;
    forall k | 0 <= k < |lines| ensures QuietLine(nonce, lines[k]) {
      assert ([line] + lines)[k + 1] == lines[k];
    }
  }

  // --- Reading what holds no sentinel ---

  /** With a block open, such text goes to the block's output and changes nothing else. */
  lemma {:induction false} ReadQuiet(nonce: string, st: State, i: nat, text: string)
    requires QuietLines(nonce, Lines(text)) && !st.dead && st.current == Some(i) && i < |st.outcomes|
    ensures ReadLines(nonce, st, Lines(text)) == Printed(st, i, text)
    decreases |text|
  {
    hide ReadLine, ReadLines, QuietLine, QuietLines, Lines, IsLine;
    if text == "" {
      NoLines();
      ReadNone(nonce, st);
      PrintedNothing(st, i);
    } else {
      var line, rest := CutLine(text);
      QuietTail(nonce, line, Lines(rest));
      QuietIsRead(nonce, st, i, line);
      ReadQuiet(nonce, Printed(st, i, line), i, rest);
      ReadFirst(nonce, st, line, Lines(rest));
      PrintedTwice(st, i, line, rest);
    }
  }

  /** More of an open block's output. */
  function Printed(st: State, i: nat, text: string): State
    requires i < |st.outcomes|
  {
    var o := st.outcomes[i];
    st.(outcomes := st.outcomes[i := o.(stdout := o.stdout + text)])
  }

  lemma PrintedNothing(st: State, i: nat)
    requires i < |st.outcomes|
    ensures Printed(st, i, "") == st
  {
    var o := st.outcomes[i];
    assert o.stdout + "" == o.stdout;
    assert st.outcomes[i := o] == st.outcomes;
  }

  lemma PrintedTwice(st: State, i: nat, a: string, b: string)
    requires i < |st.outcomes|
    ensures Printed(Printed(st, i, a), i, b) == Printed(st, i, a + b)
  {
    var o := st.outcomes[i];
    assert (o.stdout + a) + b == o.stdout + (a + b);
    var last := o.(stdout := o.stdout + (a + b));
    assert st.outcomes[i := o.(stdout := o.stdout + a)][i := last] == st.outcomes[i := last];
  }

  lemma ReadNone(nonce: string, st: State)
    ensures ReadLines(nonce, st, []) == st
  {
  }

  lemma QuietIsRead(nonce: string, st: State, i: nat, line: string)
    requires QuietLine(nonce, line) && !st.dead && st.current == Some(i) && i < |st.outcomes|
    ensures ReadLine(nonce, st, line) == Printed(st, i, line)
  {
    hide SearchBegin, SearchEnd;
  }

  lemma ReadFirst(nonce: string, st: State, line: string, lines: seq<string>)
    ensures ReadLines(nonce, st, [line] + lines) == ReadLines(nonce, ReadLine(nonce, st, line), lines)
  {
    hide ReadLine;
    assert ([line] + lines)[1..] == lines;
  }

  lemma ReadBlank(nonce: string, st: State)
    requires st.current.None?
    ensures ReadLines(nonce, st, Lines("\n")) == st
  {
    hide SearchBegin, SearchEnd;
    OneLine("");
    assert "" + "\n" == "\n";
    ReadOne(nonce, st, "\n");
    NoAts("\n");
    assert "\n"[0..] == "\n";
    FewAtsQuiet(nonce, "\n", 0);
  }
}
