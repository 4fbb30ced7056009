/** What the fences of a page hold, written out by their lines. */
module FenceContents {
  import opened Text
  import opened Wrappers
  import opened FenceSyntax
  import opened Fences
  import opened LineShapes

  /** The content line without its first characters, where they are white space: as many as the
      opener is indented by, or all of a shorter line. */
  predicate IsContent(line: string, indent: nat, part: string) {
    var n := if indent <= |line| then indent else |line|;
    if AllSpace(line[..n]) then part == line[n..] else part == line
  }

  /** The line starts, after white space, with the mark of an expectation. */
  ghost predicate IsExpect(line: string) {
    exists left, rest :: line == left + "<!-- expect" + rest && AllSpace(left)
  }

  lemma BlankIs(s: string)
    ensures Blank(s) <==> AllSpace(s)
  {
    hide IsSpace;
    if AllSpace(s) {
      assert s == s + "" + "";
      StripIs(s, "", "");
    }
    if Blank(s) {
      var left, right := StripLeaves(s);
      assert s == left + right;
    }
  }

  lemma ExpectIs(line: string)
    ensures IsExpectation(line) <==> IsExpect(line)
  {
    hide IsSpace, LStrip;
    var left := SpaceBefore(line);
    if IsExpectation(line) {
      var rest := LStrip(line)[|EXPECT_PREFIX|..];
      assert LStrip(line) == "<!-- expect" + rest;
      assert line == left + "<!-- expect" + rest;
    }
    if IsExpect(line) {
      var before, rest :| line == before + "<!-- expect" + rest && AllSpace(before);
      assert line == before + ("<!-- expect" + rest);
      NoSpaceFirst();
      LStripIs(before, "<!-- expect" + rest);
    }
  }

  lemma NoSpaceFirst()
    ensures !IsSpace('<')
  {
  }

  /** Each fence: its content line by line, and every expectation line straight after it. */
  lemma ContentIs(lines: seq<string>, i: nat, n: nat)
    requires i <= |lines| && FencesFrom(lines, i).Ok? && n < |FencesFrom(lines, i).value|
    ensures var f := FencesFrom(lines, i).value[n];
            var start, close := f.line - 1, f.line + |f.body|;
            && 0 <= start < close < |lines| && Opens(lines[start]).Some?
            && (forall k :: 0 <= k < |f.body| ==>
                  start + 1 + k < |lines|
                  && IsContent(lines[start + 1 + k], Opens(lines[start]).value.indent, f.body[k]))
            && close + 1 + |f.trailing| <= |lines|
            && (forall k :: 0 <= k < |f.trailing| ==>
                  f.trailing[k] == lines[close + 1 + k] && IsExpect(f.trailing[k]))
            && (close + 1 + |f.trailing| < |lines| ==> !IsExpect(lines[close + 1 + |f.trailing|]))
  {
    hide Opens, Closes, IsExpect, IsExpectation, FencesFrom, Strip;
    FencesAreThePages(lines, i, n);
    TrailingEnds(lines, i, n);
    var f := FencesFrom(lines, i).value[n];
    var start, close := f.line - 1, f.line + |f.body|;
    var indent := Opens(lines[start]).value.indent;
    forall k | 0 <= k < |f.body|
      ensures start + 1 + k < |lines| && IsContent(lines[start + 1 + k], indent, f.body[k])
    {
      assert f.body[k] == Dedent(lines[start + 1 + k], indent);
      DedentIs(lines[start + 1 + k], indent);
    }
    forall k | 0 <= k < |f.trailing|
      ensures f.trailing[k] == lines[close + 1 + k] && IsExpect(f.trailing[k])
    {
      assert IsExpectation(lines[close + 1 + k]);
      ExpectIs(f.trailing[k]);
    }
    if close + 1 + |f.trailing| < |lines| {
      ExpectIs(lines[close + 1 + |f.trailing|]);
    }
  }

  lemma DedentIs(line: string, indent: nat)
    ensures IsContent(line, indent, Dedent(line, indent))
  {
    hide Blank, AllSpace;
    BlankIs(line[..if indent <= |line| then indent else |line|]);
  }

  /** The expectation lines of a fence go on as long as they do. */
  lemma {:induction false} TrailingEnds(lines: seq<string>, i: nat, n: nat)
    requires i <= |lines| && FencesFrom(lines, i).Ok? && n < |FencesFrom(lines, i).value|
    ensures var f := FencesFrom(lines, i).value[n];
            var after := f.line + |f.body| + 1 + |f.trailing|;
            0 <= f.line && (after < |lines| ==> !IsExpectation(lines[after]))
    decreases |lines| - i
  {
    hide Opens, CloserFrom, IsExpectation, FenceAt;
    match Opens(lines[i])
    case None => TrailingEnds(lines, i + 1, n);
    case Some(o) =>
      var close := CloserFrom(lines, i + 1, o.marker);
      if n == 0 {
        FenceTrails(lines, i, o, close);
      } else {
        TrailingEnds(lines, close + 1, n - 1);
      }
  }

  lemma FenceTrails(lines: seq<string>, i: nat, o: Opener, close: nat)
    requires i < close < |lines|
    ensures var f := FenceAt(lines, i, o, close);
            var after := f.line + |f.body| + 1 + |f.trailing|;
            0 <= f.line && (after < |lines| ==> !IsExpectation(lines[after]))
  {
    hide IsExpectation, Strip, Dedented, ExpectationsEnd;
    ExpectationsRun(lines, close + 1);
    DedentedAll(lines[i + 1..close], o.indent);
  }

  lemma DedentedAll(lines: seq<string>, indent: nat)
    ensures |Dedented(lines, indent)| == |lines|
  {
  }
}
