/** What the line splitter of `doc_claims.py` shows of any page, with front matter, fences and
    comments in whatever order. */
module WholePage {
  import opened Text
  import opened Wrappers
  import opened Sequences
  import opened FenceSyntax
  import opened Fences
  import opened VisibleLines

  // --- Inside a comment ---

  predicate ClosesAt(line: string, at: int) {
    0 <= at && at + 3 <= |line| && line[at..at + 3] == "-->"
  }

  ghost predicate HoldsCloser(line: string) {
    exists at :: ClosesAt(line, at)
  }

  /** The text after the first closing mark. */
  ghost predicate AfterCloser(line: string, rest: string) {
    exists at :: ClosesAt(line, at) && rest == line[at + 3..] && forall k :: 0 <= k < at ==> !ClosesAt(line, k)
  }

  lemma ClosesIs(line: string, at: int)
    ensures ClosesAt(line, at) <==> OccursAt(line, COMMENT.closer, at)
  {
    if OccursAt(line, COMMENT.closer, at) {
      assert line[at..][..3] == line[at..at + 3];
    }
    if ClosesAt(line, at) {
      assert line[at..][..3] == line[at..at + 3];
    }
  }

  lemma FirstCloser(line: string)
    ensures var at := Find(line, COMMENT.closer, 0);
            && (HoldsCloser(line) <==> at >= 0)
            && (at >= 0 ==> ClosesAt(line, at) && AfterCloser(line, line[at + 3..]))
  {
    hide Find, OccursAt, ClosesAt;
    FindIsFirst(line, COMMENT.closer, 0);
    forall k ensures ClosesAt(line, k) <==> OccursAt(line, COMMENT.closer, k) {
      ClosesIs(line, k);
    }
    NotBefore(line);
  }

  lemma NotBefore(line: string)
    ensures forall k :: ClosesAt(line, k) ==> 0 <= k && k + 3 <= |line|
  {
  }

  lemma ShownAfterCloser(mode: Mode, line: string, number: nat) returns (rest: string)
    requires mode.Comment? && HoldsCloser(line) && '\n' !in line
    ensures AfterCloser(line, rest)
    ensures var scan := Uncomment(COMMENT, rest, false);
            ScanLine(mode, line, number) == (if scan.open then Comment(number + 1) else Prose, scan.text)
  {
    hide Uncomment, Find, HoldsCloser, AfterCloser, ClosesAt;
    FirstCloser(line);
    UncommentFrom(COMMENT, line, 0);
    assert line[0..] == line;
    rest := line[Find(line, COMMENT.closer, 0) + 3..];
  }

  /** A comment left open hides every line up to the first that holds `-->`, fence openers among
      them; that line shows what follows the mark, less the comments in it. */
  lemma {:induction false} ScanInsideComment(raw: seq<string>, number: nat, line: nat, close: nat)
    requires number <= close <= |raw| && forall k :: 0 <= k < |raw| ==> '\n' !in raw[k]
    requires forall k :: number <= k < close ==> !HoldsCloser(raw[k])
    ensures close == |raw| ==>
              ScanFrom(Comment(line), raw, number) == (Comment(line), Blanks(|raw| - number))
    ensures close < |raw| && HoldsCloser(raw[close]) ==>
              exists rest :: AfterCloser(raw[close], rest) &&
                var scan := Uncomment(COMMENT, rest, false);
                ScanFrom(Comment(line), raw, number)
                == Onto(Blanks(close - number) + [scan.text],
                        ScanFrom(if scan.open then Comment(close + 1) else Prose, raw, close + 1))
    decreases close - number
  {
    hide Uncomment, Find, HoldsCloser, AfterCloser;
    if number < close {
      ScanInsideComment(raw, number + 1, line, close);
      FirstCloser(raw[number]);
      BlankFirst(close - number);
      assert Blanks(|raw| - number) == [""] + Blanks(|raw| - number - 1);
      if close < |raw| && HoldsCloser(raw[close]) {
        var rest :| AfterCloser(raw[close], rest) &&
          var scan := Uncomment(COMMENT, rest, false);
          ScanFrom(Comment(line), raw, number + 1)
          == Onto(Blanks(close - number - 1) + [scan.text],
                  ScanFrom(if scan.open then Comment(close + 1) else Prose, raw, close + 1));
        var scan := Uncomment(COMMENT, rest, false);
        var after := ScanFrom(if scan.open then Comment(close + 1) else Prose, raw, close + 1);
        Assoc([""], Blanks(close - number - 1), [scan.text]);
        Assoc([""], Blanks(close - number - 1) + [scan.text], after.1);
        assert AfterCloser(raw[close], rest);
      }
    } else if close < |raw| && HoldsCloser(raw[close]) {
      var rest := ShownAfterCloser(Comment(line), raw[close], close);
      assert Blanks(0) == [];
      var scan := Uncomment(COMMENT, rest, false);
      assert Blanks(0) + [scan.text] == [scan.text];
      assert AfterCloser(raw[close], rest);
    }
  }

  lemma BlankFirst(n: nat)
    requires n > 0
    ensures Blanks(n) == [""] + Blanks(n - 1)
  {
  }

  // --- A page without front matter ---

  /** The lines from `i` on with every fence emptied that opens where no comment is open, up to
      its closer; or the line and marker of one that never closes. Whether a comment is open is
      what deleting comments from the lines says. */
  function Emptied(raw: seq<string>, i: nat, open: bool): Result<seq<string>, (nat, string)>
    requires i <= |raw|
    decreases |raw| - i
  {
    if i == |raw| then Ok([])
    else if open || Opens(raw[i]).None? then
      match Emptied(raw, i + 1, Uncomment(COMMENT, raw[i], open).open)
      case Ok(rest) => Ok([raw[i]] + rest)
      case Err(e) => Err(e)
    else
      var marker := Opens(raw[i]).value.marker;
      var close := CloserFrom(raw, i + 1, marker);
      if close == |raw| then Err((i + 1, marker))
      else match Emptied(raw, close + 1, false)
           case Ok(rest) => Ok(Blanks(close + 1 - i) + rest)
           case Err(e) => Err(e)
  }

  predicate OneLine(raw: seq<string>) {
    forall k :: 0 <= k < |raw| ==> '\n' !in raw[k]
  }

  /** The scan shows what deleting comments leaves of these lines. */
  predicate ShowsAs(r: (Mode, seq<string>), lines: seq<string>, mode: Mode) {
    && !r.0.Fenced? && |r.1| == |lines|
    && if lines == [] then r.0 == mode
       else Scan(Join(r.1, '\n'), r.0.Comment?) == Uncomment(COMMENT, Join(lines, '\n'), mode.Comment?)
  }

  lemma LineAhead(r: (Mode, seq<string>), lines: seq<string>, mode: Mode, line: string, next: Mode, out: string)
    requires ShowsAs(r, lines, next) && '\n' !in line && !mode.Fenced? && !next.Fenced?
    requires Scan(out, next.Comment?) == Uncomment(COMMENT, line, mode.Comment?)
    ensures ShowsAs((r.0, [out] + r.1), [line] + lines, mode)
  {
    hide Uncomment, Join;
    if lines == [] {
      OnlyLine(line);
      OnlyLine(out);
      assert [out] + r.1 == [out] && [line] + lines == [line];
    } else {
      assert r.1 != [];
      JoinFirst(line, lines);
      JoinFirst(out, r.1);
      UncommentLine(COMMENT, line, Join(lines, '\n'), mode.Comment?);
    }
  }

  lemma OnlyLine(line: string)
    ensures Join([line], '\n') == line
  {
  }

  lemma {:induction false} BlanksAhead(r: (Mode, seq<string>), lines: seq<string>, n: nat)
    requires ShowsAs(r, lines, Prose)
    ensures ShowsAs((r.0, Blanks(n) + r.1), Blanks(n) + lines, Prose)
  {
    hide ShowsAs;
    if n == 0 {
      assert Blanks(0) + r.1 == r.1 && Blanks(0) + lines == lines;
    } else {
      BlanksAhead(r, lines, n - 1);
      BlankFirst(n);
      Assoc([""], Blanks(n - 1), r.1);
      Assoc([""], Blanks(n - 1), lines);
      UncommentNothing(COMMENT, false);
      LineAhead((r.0, Blanks(n - 1) + r.1), Blanks(n - 1) + lines, Prose, "", Prose, "");
    }
  }

  lemma PlainStep(mode: Mode, line: string, number: nat)
    requires !mode.Fenced? && '\n' !in line && (mode.Comment? || Opens(line).None?)
    ensures var (next, out) := ScanLine(mode, line, number);
            !next.Fenced? && Scan(out, next.Comment?) == Uncomment(COMMENT, line, mode.Comment?)
  {
    UncommentFrom(COMMENT, line, 0);
    assert line[0..] == line;
  }

  lemma {:induction false} ScanIsEmptied(mode: Mode, raw: seq<string>, i: nat)
    requires i <= |raw| && !mode.Fenced? && OneLine(raw)
    ensures match Emptied(raw, i, mode.Comment?)
            case Err(e) => ScanFrom(mode, raw, i).0 == Fenced(e.1, e.0)
            case Ok(lines) => ShowsAs(ScanFrom(mode, raw, i), lines, mode)
    decreases |raw| - i
  {
    hide Uncomment, Join, Opens, ShowsAs, CloserFrom, ScanLine;
    if i == |raw| {
      NothingShown(mode);
    } else if mode.Comment? || Opens(raw[i]).None? {
      PlainStep(mode, raw[i], i);
      var (next, out) := ScanLine(mode, raw[i], i);
      ScanIsEmptied(next, raw, i + 1);
      var rest := Emptied(raw, i + 1, next.Comment?);
      if rest.Ok? {
        LineAhead(ScanFrom(next, raw, i + 1), rest.value, mode, raw[i], next, out);
      }
    } else {
      FenceStep(raw, i, mode);
      var close := CloserFrom(raw, i + 1, Opens(raw[i]).value.marker);
      if close < |raw| {
        ScanIsEmptied(Prose, raw, close + 1);
        var rest := Emptied(raw, close + 1, false);
        if rest.Ok? {
          BlanksAhead(ScanFrom(Prose, raw, close + 1), rest.value, close + 1 - i);
        }
      }
    }
  }

  lemma NothingShown(mode: Mode)
    requires !mode.Fenced?
    ensures ShowsAs((mode, []), [], mode)
  {
  }

  lemma FenceStep(raw: seq<string>, i: nat, mode: Mode)
    requires i < |raw| && !mode.Fenced? && !mode.Comment? && Opens(raw[i]).Some?
    ensures var marker := Opens(raw[i]).value.marker;
            var close := CloserFrom(raw, i + 1, marker);
            if close == |raw| then ScanFrom(mode, raw, i).0 == Fenced(marker, i + 1)
            else ScanFrom(mode, raw, i) == Onto(Blanks(close + 1 - i), ScanFrom(Prose, raw, close + 1))
  {
    hide Opens, CloserFrom;
    var marker := Opens(raw[i]).value.marker;
    var close := CloserFrom(raw, i + 1, marker);
    ScanInsideFence(raw, i + 1, marker, i + 1);
    if close < |raw| {
      BlankFirst(close + 1 - i);
      Assoc([""], Blanks(close - i), ScanFrom(Prose, raw, close + 1).1);
    }
  }

  // --- Which comment is left open ---

  predicate HoldsOpener(line: string) {
    Contains(line, "<!--")
  }

  lemma LeavesOpen(mode: Mode, line: string, number: nat)
    requires !mode.Fenced? && '\n' !in line && ScanLine(mode, line, number).0.Comment?
    ensures var next := ScanLine(mode, line, number).0;
            (next == mode && !HoldsCloser(line)) || (next == Comment(number + 1) && HoldsOpener(line))
  {
    hide Uncomment, Find, Opens, HoldsCloser, AfterCloser, Contains;
    if mode.Comment? {
      FirstCloser(line);
      if HoldsCloser(line) {
        var rest := ShownAfterCloser(mode, line, number);
        if Contains(rest, "<!--") {
          NoOpenerAfter(line, rest);
        } else {
          UncommentedLine(rest);
        }
      }
    } else if !HoldsOpener(line) {
      UncommentedLine(line);
    }
  }

  lemma NoOpenerAfter(line: string, rest: string)
    requires AfterCloser(line, rest) && Contains(rest, "<!--")
    ensures HoldsOpener(line)
  {
    var at :| ClosesAt(line, at) && rest == line[at + 3..];
    var k :| 0 <= k <= |rest| && OccursAt(rest, "<!--", k);
    assert line[at + 3..][k..] == line[at + 3 + k..];
    assert OccursAt(line, "<!--", at + 3 + k);
  }

  /** The line that is named for a comment left open holds an opening mark, and no line below it
      holds a closing one. */
  lemma {:induction false} LeftOpenAt(mode: Mode, raw: seq<string>, i: nat)
    requires i <= |raw| && ValidMode(mode) && OneLine(raw) && ScanFrom(mode, raw, i).0.Comment?
    requires mode.Comment? ==> mode.line <= i
    ensures var line := ScanFrom(mode, raw, i).0.line;
            if line <= i then mode == Comment(line) && forall k :: i <= k < |raw| ==> !HoldsCloser(raw[k])
            else line <= |raw| && HoldsOpener(raw[line - 1])
                 && forall k :: line <= k < |raw| ==> !HoldsCloser(raw[k])
    decreases |raw| - i
  {
    hide HoldsOpener, HoldsCloser, ScanLine;
    if i < |raw| {
      var next := ScanLine(mode, raw[i], i).0;
      if next.Comment? {
        NotFromAFence(mode, raw[i], i);
        LeavesOpen(mode, raw[i], i);
      }
      LeftOpenAt(next, raw, i + 1);
    }
  }

  lemma NotFromAFence(mode: Mode, line: string, number: nat)
    requires ValidMode(mode) && ScanLine(mode, line, number).0.Comment?
    ensures !mode.Fenced?
  {
  }

  // --- Any page ---

  lemma SplitShown(out: seq<string>)
    requires out != [] && OneLine(out)
    ensures out == Split(Join(out, '\n'), '\n')
  {
    SplitJoin(out, '\n');
  }

  lemma {:induction false} ShownHoldNoBreak(mode: Mode, raw: seq<string>, i: nat)
    requires i <= |raw| && ValidMode(mode) && OneLine(raw)
    ensures OneLine(ScanFrom(mode, raw, i).1)
    decreases |raw| - i
  {
    hide ScanLine;
    if i < |raw| {
      ShownHoldsNoBreak(mode, raw[i], i);
      ShownHoldNoBreak(ScanLine(mode, raw[i], i).0, raw, i + 1);
    }
  }

  lemma ShownHoldsNoBreak(mode: Mode, line: string, number: nat)
    requires ValidMode(mode) && '\n' !in line
    ensures '\n' !in ScanLine(mode, line, number).1
  {
    UncommentKeepsNoBreak(COMMENT, line, false);
    UncommentKeepsNoBreak(COMMENT, line, true);
  }

  lemma {:induction false} UncommentKeepsNoBreak(m: Marks, s: string, open: bool)
    requires VisibleLines.Proper(m) && '\n' !in s
    ensures '\n' !in Uncomment(m, s, open).text
    decreases |s|
  {
    if s != "" {
      var mark := if open then m.closer else m.opener;
      UncommentNext(m, s, open);
      if mark <= s {
        UncommentKeepsNoBreak(m, s[|mark|..], !open);
      } else {
        UncommentKeepsNoBreak(m, s[1..], open);
      }
    }
  }

  /** A refusal for a comment: the last one, by the line that opens it. */
  ghost predicate RefusedFor(raw: seq<string>, n: nat, line: nat) {
    && n < line <= |raw| && HoldsOpener(raw[line - 1])
    && forall k :: line <= k < |raw| ==> !HoldsCloser(raw[k])
  }

  lemma BelowFrontMatter(raw: seq<string>, n: nat)
    requires n <= |raw| && OneLine(raw)
    ensures var (last, out) := ScanFrom(Prose, raw, n);
            match Emptied(raw, n, false)
            case Err(e) => last == Fenced(e.1, e.0)
            case Ok(lines) =>
              var whole := Uncomment(COMMENT, Join(lines, '\n'), false);
              if lines == [] then last == Prose && out == []
              else if !whole.open then last == Prose && out == Split(whole.text, '\n')
              else last.Comment? && RefusedFor(raw, n, last.line)
  {
    hide Uncomment, Emptied, HoldsOpener, HoldsCloser, Join, Split, ScanFrom;
    ScanIsEmptied(Prose, raw, n);
    ShownHoldNoBreak(Prose, raw, n);
    var (last, out) := ScanFrom(Prose, raw, n);
    if last.Comment? {
      LeftOpenAt(Prose, raw, n);
    } else if Emptied(raw, n, false).Ok? && out != [] {
      SplitShown(out);
    }
  }

  /** Every page: its front matter is blank, and the lines below it are what deleting every comment
      leaves of them once the fences that open outside comments are empty. It is refused for the
      fence that never closes, or else for a comment that never does. */
  lemma VisibleIs(text: string, n: nat)
    requires IsFrontMatter(Split(Newlines(text), '\n'), n)
    ensures var raw := Split(Newlines(text), '\n');
            n <= |raw| &&
            match Emptied(raw, n, false)
            case Err(e) => Visible(text) == Err(UnclosedFence(e.0, e.1))
            case Ok(lines) =>
              var whole := Uncomment(COMMENT, Join(lines, '\n'), false);
              if lines == [] then Visible(text) == Ok(Blanks(n))
              else if !whole.open then Visible(text) == Ok(Blanks(n) + Split(whole.text, '\n'))
              else exists line: nat :: RefusedFor(raw, n, line) && Visible(text) == Err(UnclosedComment(line))
  {
    hide IsFrontMatter, Uncomment, Emptied, RefusedFor, Join, Split, ScanFrom, Newlines;
    var raw := Split(Newlines(text), '\n');
    FrontMatterIs(raw, n);
    BelowFrontMatter(raw, n);
    assert seq(n, _ => "") == Blanks(n);
    assert Blanks(n) + [] == Blanks(n);
  }

  // --- Line breaks ---

  predicate IsBreakBefore(a: string, gap: string, b: string) {
    gap == "\r\n" || (gap == "\n" && (a == "" || a[|a| - 1] != '\r')) || (gap == "\r" && (b == "" || b[0] != '\n'))
  }

  /** How many characters the first one's line break or text takes, and what becomes of them. */
  function FirstTaken(s: string): (r: (nat, string))
    requires s != ""
    ensures 1 <= r.0 <= |s|
  {
    if |s| > 1 && s[0] == '\r' && s[1] == '\n' then (2, "\n") else (1, if s[0] == '\r' then "\n" else [s[0]])
  }

  lemma NewlinesNext(s: string)
    requires s != ""
    ensures var (k, first) := FirstTaken(s); Newlines(s) == first + Newlines(s[k..])
  {
    assert "\r\n" <= s <==> |s| > 1 && s[0] == '\r' && s[1] == '\n';
  }

  lemma TakenAlike(a: string, gap: string, b: string)
    requires a != "" && IsBreakBefore(a, gap, b)
    ensures FirstTaken(a + (gap + b)) == FirstTaken(a)
    ensures IsBreakBefore(a[FirstTaken(a).0..], gap, b)
  {
  }

  lemma BreakFirst(gap: string, b: string)
    requires IsBreakBefore("", gap, b)
    ensures Newlines(gap + b) == "\n" + Newlines(b)
  {
    hide Newlines;
    NewlinesNext(gap + b);
    assert (gap + b)[|gap|..] == b;
  }

  /** A line break between two texts, whichever it is, becomes a line feed between theirs. */
  lemma {:induction false} BreakAcross(a: string, b: string, gap: string)
    requires IsBreakBefore(a, gap, b)
    ensures Newlines(a + (gap + b)) == Newlines(a) + ("\n" + Newlines(b))
    decreases |a|
  {
    hide Newlines, IsBreakBefore, FirstTaken;
    if a == "" {
      BreakFirst(gap, b);
      NewlinesOfNone();
      assert a + (gap + b) == gap + b && "" + ("\n" + Newlines(b)) == "\n" + Newlines(b);
    } else {
      var (k, first) := FirstTaken(a);
      TakenAlike(a, gap, b);
      BreakAcross(a[k..], b, gap);
      TailOf(a, gap + b, k);
      NewlinesNext(a);
      NewlinesNext(a + (gap + b));
      Assoc(first, Newlines(a[k..]), "\n" + Newlines(b));
    }
  }

  lemma NewlinesOfNone()
    ensures Newlines("") == ""
  {
  }
}
