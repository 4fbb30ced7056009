/** The shapes of lines that the scanners tell apart, written out as what a line is put together
    from instead of how it is read. */
module LineShapes {
  import opened Text
  import opened Wrappers
  import opened Numbers
  import opened FenceSyntax
  import opened LineSyntax

  predicate AllSpace(s: string) {
    forall k :: 0 <= k < |s| ==> IsSpace(s[k])
  }

  predicate AllBlank(s: string) {
    forall k :: 0 <= k < |s| ==> IsBlank(s[k])
  }

  predicate AllOf(s: string, c: char) {
    forall k :: 0 <= k < |s| ==> s[k] == c
  }

  // --- Stripping ---

  /** Nothing at either end is white space. */
  predicate Bare(s: string) {
    s != "" ==> !IsSpace(s[0]) && !IsSpace(s[|s| - 1])
  }

  lemma {:induction false} LStripIs(left: string, rest: string)
    requires AllSpace(left) && (rest != "" ==> !IsSpace(rest[0]))
    ensures LStrip(left + rest) == rest
  {
    hide IsSpace;
    if left == "" {
      assert left + rest == rest;
    } else {
      assert (left + rest)[1..] == left[1..] + rest;
      LStripIs(left[1..], rest);
    }
  }

  lemma {:induction false} RStripIs(rest: string, right: string)
    requires AllSpace(right) && (rest != "" ==> !IsSpace(rest[|rest| - 1]))
    ensures RStrip(rest + right) == rest
  {
    hide IsSpace;
    if right == "" {
      assert rest + right == rest;
    } else {
      var n := |right| - 1;
      assert (rest + right)[..|rest + right| - 1] == rest + right[..n];
      assert (rest + right)[|rest + right| - 1] == right[n];
      RStripIs(rest, right[..n]);
    }
  }

  lemma {:induction false} SpaceBefore(s: string) returns (left: string)
    ensures AllSpace(left) && s == left + LStrip(s) && (LStrip(s) != "" ==> !IsSpace(LStrip(s)[0]))
  {
    hide IsSpace;
    if s != "" && IsSpace(s[0]) {
      var more := SpaceBefore(s[1..]);
      left := [s[0]] + more;
    } else {
      left := "";
    }
  }

  lemma {:induction false} SpaceAfter(s: string) returns (right: string)
    ensures AllSpace(right) && s == RStrip(s) + right
    ensures RStrip(s) != "" ==> !IsSpace(RStrip(s)[|RStrip(s)| - 1])
  {
    hide IsSpace;
    if s != "" && IsSpace(s[|s| - 1]) {
      var more := SpaceAfter(s[..|s| - 1]);
      right := more + [s[|s| - 1]];
    } else {
      right := "";
    }
  }

  /** Stripping removes the white space at both ends and nothing else. */
  lemma StripIs(left: string, middle: string, right: string)
    requires AllSpace(left) && AllSpace(right) && Bare(middle)
    ensures Strip(left + middle + right) == middle
  {
    hide IsSpace;
    if middle == "" {
      assert AllSpace(left + right) && left + middle + right == (left + right) + "";
      LStripIs(left + right, "");
    } else {
      assert left + middle + right == left + (middle + right);
      LStripIs(left, middle + right);
      RStripIs(middle, right);
    }
  }

  lemma StripLeaves(s: string) returns (left: string, right: string)
    ensures AllSpace(left) && AllSpace(right) && Bare(Strip(s)) && s == left + Strip(s) + right
  {
    hide IsSpace;
    left := SpaceBefore(s);
    right := SpaceAfter(LStrip(s));
  }

  // --- Fences ---

  /** A line that opens a fence: blanks, three or more backticks or tildes, and an info string
      that does not go on with them and, after backticks, holds none. */
  predicate IsOpener(line: string, indent: string, marker: string, info: string) {
    && line == indent + marker + info && AllBlank(indent)
    && |marker| >= 3 && (marker[0] == '`' || marker[0] == '~') && AllOf(marker, marker[0])
    && (info != "" ==> info[0] != marker[0]) && (marker[0] == '`' ==> '`' !in info)
  }

  lemma {:induction false} IndentIs(indent: string, rest: string)
    requires AllBlank(indent) && (rest != "" ==> !IsBlank(rest[0]))
    ensures Indent(indent + rest) == |indent|
  {
    if indent == "" {
      assert indent + rest == rest;
    } else {
      assert (indent + rest)[1..] == indent[1..] + rest;
      IndentIs(indent[1..], rest);
    }
  }

  lemma {:induction false} IndentLeaves(line: string)
    ensures AllBlank(line[..Indent(line)])
    ensures Indent(line) < |line| ==> !IsBlank(line[Indent(line)])
  {
    if line != "" && IsBlank(line[0]) {
      IndentLeaves(line[1..]);
      var n := Indent(line[1..]);
      assert line[..n + 1] == [line[0]] + line[1..][..n];
    }
  }

  lemma {:induction false} RunIs(run: string, rest: string, c: char)
    requires AllOf(run, c) && (rest != "" ==> rest[0] != c)
    ensures RunLength(run + rest, c) == |run|
  {
    if run == "" {
      assert run + rest == rest;
    } else {
      assert (run + rest)[1..] == run[1..] + rest;
      RunIs(run[1..], rest, c);
    }
  }

  lemma OpensOpener(line: string, indent: string, marker: string, info: string)
    requires IsOpener(line, indent, marker, info)
    ensures Opens(line) == Some(Opener(|indent|, marker, info))
  {
    assert line == indent + (marker + info);
    IndentIs(indent, marker + info);
    var rest := line[|indent|..];
    assert rest == marker + info;
    RunIs(marker, info, marker[0]);
    assert rest[..|marker|] == marker && rest[|marker|..] == info;
  }

  /** Exactly such lines open a fence. */
  lemma OpensIs(line: string)
    ensures Opens(line).Some? ==>
              var o := Opens(line).value;
              IsOpener(line, line[..o.indent], o.marker, o.info)
    ensures forall indent, marker, info :: IsOpener(line, indent, marker, info) ==>
              Opens(line) == Some(Opener(|indent|, marker, info))
  {
    IndentLeaves(line);
    forall indent, marker, info | IsOpener(line, indent, marker, info)
      ensures Opens(line) == Some(Opener(|indent|, marker, info))
    {
      OpensOpener(line, indent, marker, info);
    }
  }

  /** A line that closes a fence: its marker's character at least as often as in the marker, and white
      space at most around it. */
  ghost predicate IsCloser(line: string, marker: string)
    requires marker != ""
  {
    exists left, run, right :: line == left + run + right && AllSpace(left) && AllSpace(right)
                               && AllOf(run, marker[0]) && |run| >= |marker|
  }

  lemma ClosesIs(line: string, marker: string)
    requires marker != "" && !IsSpace(marker[0])
    ensures Closes(line, marker) <==> IsCloser(line, marker)
  {
    hide Strip, IsSpace;
    var closer := Strip(line);
    if Closes(line, marker) {
      var left, right := StripLeaves(line);
      assert forall k :: 0 <= k < |closer| ==> closer[k] in closer;
    }
    if IsCloser(line, marker) {
      var left, run, right :| line == left + run + right && AllSpace(left) && AllSpace(right)
                              && AllOf(run, marker[0]) && |run| >= |marker|;
      assert run[0] == marker[0] == run[|run| - 1];
      StripIs(left, run, right);
    }
  }

  // --- Blockquotes ---

  predicate IsQuoting(s: string) {
    (s != "" ==> s[0] == '>') && forall k :: 0 <= k < |s| ==> s[k] == '>' || IsBlank(s[k])
  }

  lemma {:induction false} BlanksSkipped(line: string, i: nat, j: nat)
    requires i <= j <= |line| && AllBlank(line[i..j]) && (j < |line| ==> !IsBlank(line[j]))
    ensures SkipBlanks(line, i) == j
    decreases j - i
  {
    if i < j {
      assert line[i..j][0] == line[i] && line[i + 1..j] == line[i..j][1..];
      BlanksSkipped(line, i + 1, j);
    }
  }

  lemma SkippedAreBlank(line: string, i: nat)
    requires i <= |line|
    ensures var j := SkipBlanks(line, i);
            AllBlank(line[i..j]) && (j < |line| ==> !IsBlank(line[j]))
    decreases |line| - i
  {
    if i < |line| && IsBlank(line[i]) {
      SkippedAreBlank(line, i + 1);
      var j := SkipBlanks(line, i + 1);
      assert line[i..j] == [line[i]] + line[i + 1..j];
    }
  }

  lemma {:induction false} BlanksUpTo(line: string, i: nat, end: nat) returns (m: nat)
    requires i <= end <= |line|
    ensures i <= m <= end && AllBlank(line[i..m]) && (m < end ==> !IsBlank(line[m]))
    decreases end - i
  {
    if i < end && IsBlank(line[i]) {
      m := BlanksUpTo(line, i + 1, end);
      assert line[i..m] == [line[i]] + line[i + 1..m];
    } else {
      m := i;
    }
  }

  lemma {:induction false} QuotesTaken(line: string, i: nat, end: nat)
    requires i <= end <= |line| && IsQuoting(line[i..end])
    requires end < |line| ==> line[end] != '>' && (i < end ==> !IsBlank(line[end]))
    ensures QuoteEnd(line, i) == (end, multiset(line[i..end])['>'])
    decreases end - i
  {
    hide IsBlank;
    if i < end {
      assert line[i..end][0] == line[i];
      var m := BlanksUpTo(line, i + 1, end);
      BlanksSkipped(line, i + 1, m);
      QuotingTail(line, i, m, end);
      QuotesTaken(line, m, end);
      QuotesAdd(line, i, m, end);
    }
  }

  lemma QuotingTail(line: string, i: nat, m: nat, end: nat)
    requires i < m <= end <= |line| && IsQuoting(line[i..end]) && (m < end ==> !IsBlank(line[m]))
    ensures IsQuoting(line[m..end])
  {
    var s := line[i..end];
    assert forall k :: 0 <= k < |line[m..end]| ==> line[m..end][k] == s[m - i + k];
  }

  lemma QuotesAdd(line: string, i: nat, m: nat, end: nat)
    requires i < m <= end <= |line| && line[i] == '>' && AllBlank(line[i + 1..m])
    ensures multiset(line[i..end])['>'] == 1 + multiset(line[m..end])['>']
  {
    var blanks := line[i + 1..m];
    assert line[i..end] == [line[i]] + blanks + line[m..end];
    assert '>' !in blanks;
  }

  /** A line's blockquote marks are all the `>` and blanks in front, from a first `>` on: its depth
      counts the `>`, and its body is the rest. */
  lemma QuotedIs(raw: string, quotes: string, body: string)
    requires Strip(raw) == quotes + body && IsQuoting(quotes)
    requires body != "" ==> body[0] != '>' && (quotes != "" ==> !IsBlank(body[0]))
    ensures Depth(raw) == multiset(quotes)['>'] && Body(raw) == body
  {
    hide Strip;
    var line, end := Strip(raw), |quotes|;
    assert line[0..end] == quotes && line[end..] == body;
    assert end < |line| ==> line[end] == body[0];
    QuotesTaken(line, 0, end);
  }

  // --- Lists, underlines and breaks ---

  /** What marks a list item: a bullet, or up to nine digits and a full stop or parenthesis. */
  predicate IsItemMark(s: string) {
    || (|s| == 1 && s[0] in "-*+")
    || (2 <= |s| <= 10 && s[|s| - 1] in ".)" && forall k :: 0 <= k < |s| - 1 ==> IsDigit(s[k]))
  }

  /** A list item: its mark, blanks unless nothing follows, and its text. */
  predicate IsItem(body: string, mark: string, gap: string, text: string) {
    && body == mark + gap + text && IsItemMark(mark) && AllBlank(gap)
    && (text != "" ==> gap != "" && !IsBlank(text[0]))
  }

  lemma {:induction false} DigitsTaken(s: string, i: nat, j: nat)
    requires i <= j <= |s| && (forall k :: i <= k < j ==> IsDigit(s[k])) && (j < |s| ==> !IsDigit(s[j]))
    ensures DigitsEnd(s, i) == j
    decreases j - i
  {
    if i < j {
      DigitsTaken(s, i + 1, j);
    }
  }

  lemma {:induction false} DigitsAre(s: string, i: nat)
    requires i <= |s|
    ensures var j := DigitsEnd(s, i);
            (forall k :: i <= k < j ==> IsDigit(s[k])) && (j < |s| ==> !IsDigit(s[j]))
    decreases |s| - i
  {
    if i < |s| && IsDigit(s[i]) {
      DigitsAre(s, i + 1);
    }
  }

  lemma BulletEnds(body: string)
    requires body != "" && body[0] in "-*+" && (|body| > 1 ==> IsBlank(body[1]))
    ensures ListMarker(body) == Some(SkipBlanks(body, 1))
  {
    hide DigitsEnd, IsDigit;
  }

  lemma NumberEnds(body: string, n: nat)
    requires 1 <= n <= 9 && n < |body| && body[n] in ".)" && forall k :: 0 <= k < n ==> IsDigit(body[k])
    requires n + 1 < |body| ==> IsBlank(body[n + 1])
    ensures ListMarker(body) == Some(SkipBlanks(body, n + 1))
  {
    hide DigitsEnd, SkipBlanks;
    DigitsTaken(body, 0, n);
    assert IsDigit(body[0]);
  }

  lemma MarkEnds(body: string, mark: string, rest: string)
    requires body == mark + rest && IsItemMark(mark) && (rest != "" ==> IsBlank(rest[0]))
    ensures ListMarker(body) == Some(SkipBlanks(body, |mark|))
  {
    hide DigitsEnd, SkipBlanks, IsDigit, IsBlank, ListMarker;
    var n := |mark|;
    assert n < |body| ==> body[n] == rest[0];
    assert forall k :: 0 <= k < n ==> body[k] == mark[k];
    if n == 1 {
      BulletEnds(body);
    } else {
      NumberEnds(body, n - 1);
    }
  }

  /** Exactly such lines start a list item, and its text is what follows the blanks. */
  lemma ItemIs(body: string, mark: string, gap: string, text: string)
    requires IsItem(body, mark, gap, text)
    ensures ListMarker(body).Some? && body[ListMarker(body).value..] == text
  {
    hide IsItemMark, IsBlank;
    var from, to := |mark|, |mark| + |gap|;
    assert body == mark + (gap + text);
    MarkEnds(body, mark, gap + text);
    assert body[from..to] == gap && body[to..] == text;
    assert to < |body| ==> body[to] == text[0];
    BlanksSkipped(body, from, to);
  }

  lemma ItemLeaves(body: string) returns (mark: string, gap: string)
    requires ListMarker(body).Some?
    ensures IsItem(body, mark, gap, body[ListMarker(body).value..])
  {
    var end := ListMarker(body).value;
    DigitsAre(body, 0);
    var n := if body[0] in "-*+" then 1 else DigitsEnd(body, 0) + 1;
    SkippedAreBlank(body, n);
    mark, gap := body[..n], body[n..end];
    assert body == mark + gap + body[end..];
    assert end < |body| ==> body[end..][0] == body[end];
    assert IsItemMark(mark);
  }

  lemma {:induction false} BlanksTrimmed(s: string, blanks: string)
    requires AllBlank(blanks) && (s != "" ==> !IsBlank(s[|s| - 1]))
    ensures RStripBlanks(s + blanks) == s
  {
    if blanks == "" {
      assert s + blanks == s;
    } else {
      var n := |blanks| - 1;
      assert (s + blanks)[..|s + blanks| - 1] == s + blanks[..n] && (s + blanks)[|s + blanks| - 1] == blanks[n];
      BlanksTrimmed(s, blanks[..n]);
    }
  }

  lemma {:induction false} TrimLeaves(s: string) returns (blanks: string)
    ensures AllBlank(blanks) && s == RStripBlanks(s) + blanks
  {
    if s != "" && IsBlank(s[|s| - 1]) {
      var more := TrimLeaves(s[..|s| - 1]);
      blanks := more + [s[|s| - 1]];
    } else {
      blanks := "";
    }
  }

  /** An underline: equals signs alone or hyphens alone, and blanks after them. */
  predicate IsRuled(body: string, marks: string, blanks: string) {
    body == marks + blanks && marks != "" && (AllOf(marks, '=') || AllOf(marks, '-')) && AllBlank(blanks)
  }

  lemma UnderlineIs(body: string, marks: string, blanks: string)
    requires IsRuled(body, marks, blanks)
    ensures IsUnderline(body)
  {
    assert marks[|marks| - 1] == '=' || marks[|marks| - 1] == '-';
    BlanksTrimmed(marks, blanks);
  }

  lemma UnderlineLeaves(body: string) returns (marks: string, blanks: string)
    requires IsUnderline(body)
    ensures IsRuled(body, marks, blanks)
  {
    marks := RStripBlanks(body);
    blanks := TrimLeaves(body);
    assert forall k :: 0 <= k < |marks| ==> marks[k] in marks;
  }

  lemma {:induction false} WithoutBlanksIs(s: string, c: char)
    requires !IsBlank(c)
    ensures multiset(WithoutBlanks(s))[c] == multiset(s)[c]
    ensures forall x :: x in WithoutBlanks(s) <==> x in s && !IsBlank(x)
  {
    if s != "" {
      WithoutBlanksIs(s[1..], c);
      assert s == [s[0]] + s[1..];
    }
  }

  lemma {:induction false} CountAll(s: string, c: char)
    requires forall x :: x in s ==> x == c
    ensures multiset(s)[c] == |s|
  {
    if s != "" {
      assert s == [s[0]] + s[1..] && s[0] in s;
      assert forall x :: x in s[1..] ==> x in s;
      CountAll(s[1..], c);
    }
  }

  /** A break: one of `*`, `-` and `_` at least three times, and nothing else but blanks. */
  predicate IsBreakOf(body: string, c: char) {
    c in "*-_" && multiset(body)[c] >= 3 && forall x :: x in body ==> x == c || IsBlank(x)
  }

  lemma BreakIs(body: string)
    ensures IsBreak(body) <==> IsBreakOf(body, '*') || IsBreakOf(body, '-') || IsBreakOf(body, '_')
  {
    var compact := WithoutBlanks(body);
    WithoutBlanksIs(body, '*');
    WithoutBlanksIs(body, '-');
    WithoutBlanksIs(body, '_');
    if IsBreak(body) {
      CountAll(compact, compact[0]);
    }
    if IsBreakOf(body, '*') {
      AllOneMark(body, '*');
    }
    if IsBreakOf(body, '-') {
      AllOneMark(body, '-');
    }
    if IsBreakOf(body, '_') {
      AllOneMark(body, '_');
    }
  }

  lemma AllOneMark(body: string, c: char)
    requires IsBreakOf(body, c)
    ensures IsBreak(body)
  {
    var compact := WithoutBlanks(body);
    WithoutBlanksIs(body, c);
    CountAll(compact, c);
    assert compact[0] in compact;
  }

  // --- Headings, pipes and HTML ---

  ghost predicate BeginsWith(s: string, start: string) {
    exists rest :: s == start + rest
  }

  lemma BeginsIs(s: string, start: string)
    ensures start <= s <==> BeginsWith(s, start)
  {
    if start <= s {
      assert s == start + s[|start|..];
    }
  }

  /** A heading line: `#` begins the body, and the line itself or a blockquote stands before it. */
  lemma HashIs(raw: string, quotes: string, body: string)
    requires Strip(raw) == quotes + body && IsQuoting(quotes)
    requires body != "" ==> body[0] != '>' && (quotes != "" ==> !IsBlank(body[0]))
    ensures IsHash(raw) <==> BeginsWith(body, "#") && (BeginsWith(raw, "#") || '>' in quotes)
  {
    hide Strip, Body, Depth, BeginsWith, IsQuoting;
    QuotedIs(raw, quotes, body);
    BeginsIs(body, "#");
    BeginsIs(raw, "#");
  }

  /** A pipe counts unless a backslash stands before it. */
  lemma PipeIs(body: string)
    ensures HasPipe(body) <==> exists a, b :: body == a + "|" + b && (a == "" || a[|a| - 1] != '\\')
  {
    if HasPipe(body) {
      var k :| 0 <= k < |body| && body[k] == '|' && (k == 0 || body[k - 1] != '\\');
      assert body == body[..k] + "|" + body[k + 1..];
    }
    if a, b :| body == a + "|" + b && (a == "" || a[|a| - 1] != '\\') {
      assert body[|a|] == '|' && (a == "" || body[|a| - 1] == a[|a| - 1]);
    }
  }

  /** HTML starts with `<` and a letter, a slash, an exclamation or a question mark. */
  lemma HtmlIs(body: string)
    ensures StartsHtml(body) <==>
            exists c, rest :: body == "<" + [c] + rest
                              && ('A' <= c <= 'Z' || 'a' <= c <= 'z' || c == '/' || c == '!' || c == '?')
  {
    if StartsHtml(body) {
      assert body == "<" + [body[1]] + body[2..];
    }
  }
}
