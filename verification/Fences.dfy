/** The fence parser of `doc_examples.py`: an index that jumps from fence to fence. */
module Fences {
  import opened Text
  import opened Wrappers
  import opened FenceSyntax

  /** `line` is the opener's, counted from 1; `body` is what stands up to the closer. */
  datatype Fence = Fence(line: nat, marker: string, info: string, body: seq<string>, trailing: seq<string>)

  datatype Unclosed = Unclosed(line: nat, marker: string)

  const EXPECT_PREFIX := "<!-- expect"

  predicate IsExpectation(line: string) {
    EXPECT_PREFIX <= LStrip(line)
  }

  predicate Blank(s: string) {
    Strip(s) == ""
  }

  /** A content line without the opener's indentation, where it has that much. */
  function Dedent(line: string, indent: nat): string {
    var head := if indent <= |line| then indent else |line|;
    if Blank(line[..head]) then line[head..] else line
  }

  function Dedented(lines: seq<string>, indent: nat): (r: seq<string>)
    ensures |r| == |lines|
  {
    seq(|lines|, k requires 0 <= k < |lines| => Dedent(lines[k], indent))
  }

  /** The first line at or after `i` that closes `marker`; the page's length if none does. */
  function CloserFrom(lines: seq<string>, i: nat, marker: string): (j: nat)
    requires i <= |lines| && marker != ""
    ensures i <= j <= |lines|
    decreases |lines| - i
  {
    if i == |lines| || Closes(lines[i], marker) then i else CloserFrom(lines, i + 1, marker)
  }

  lemma {:induction false} CloserIsFirst(lines: seq<string>, i: nat, marker: string)
    requires i <= |lines| && marker != ""
    ensures var j := CloserFrom(lines, i, marker);
            && (forall k :: i <= k < j ==> !Closes(lines[k], marker))
            && (j < |lines| ==> Closes(lines[j], marker))
    decreases |lines| - i
  {
    hide Closes;
    if i < |lines| && !Closes(lines[i], marker) {
      CloserIsFirst(lines, i + 1, marker);
    }
  }

  /** Where the run of expectation lines starting at `i` ends. */
  function ExpectationsEnd(lines: seq<string>, i: nat): (j: nat)
    requires i <= |lines|
    ensures i <= j <= |lines|
    decreases |lines| - i
  {
    if i == |lines| || !IsExpectation(lines[i]) then i else ExpectationsEnd(lines, i + 1)
  }

  lemma {:induction false} ExpectationsRun(lines: seq<string>, i: nat)
    requires i <= |lines|
    ensures var j := ExpectationsEnd(lines, i);
            && (forall k :: i <= k < j ==> IsExpectation(lines[k]))
            && (j < |lines| ==> !IsExpectation(lines[j]))
    decreases |lines| - i
  {
    hide IsExpectation;
    if i < |lines| && IsExpectation(lines[i]) {
      ExpectationsRun(lines, i + 1);
    }
  }

  function FenceAt(lines: seq<string>, i: nat, o: Opener, close: nat): Fence
    requires i < close < |lines|
  {
    Fence(i + 1, o.marker, Strip(o.info), Dedented(lines[i + 1..close], o.indent),
          lines[close + 1..ExpectationsEnd(lines, close + 1)])
  }

  /** The fences from line `i` on, where no fence is open. */
  function FencesFrom(lines: seq<string>, i: nat): Result<seq<Fence>, Unclosed>
    requires i <= |lines|
    decreases |lines| - i
  {
    if i == |lines| then Ok([])
    else match Opens(lines[i])
      case None => FencesFrom(lines, i + 1)
      case Some(o) =>
        var close := CloserFrom(lines, i + 1, o.marker);
        if close == |lines| then Err(Unclosed(i + 1, o.marker))
        else Prepend([FenceAt(lines, i, o, close)], FencesFrom(lines, close + 1))
  }

  /** The content of a fence up to its closer, which stands at `close`. */
  method ReadBody(lines: seq<string>, from: nat, o: Opener) returns (body: seq<string>, close: nat)
    requires from <= |lines| && o.marker != ""
    ensures close == CloserFrom(lines, from, o.marker)
    ensures body == Dedented(lines[from..close], o.indent)
  {
    hide Closes, Dedent;
    body := [];
    close := from;
    while close < |lines| && !Closes(lines[close], o.marker)
      invariant from <= close <= |lines|
      invariant CloserFrom(lines, from, o.marker) == CloserFrom(lines, close, o.marker)
      invariant body == Dedented(lines[from..close], o.indent)
    {
      body := body + [Dedent(lines[close], o.indent)];
      close := close + 1;
    }
  }

  /** The expectation lines straight after a fence. */
  method ReadTrailing(lines: seq<string>, from: nat) returns (trailing: seq<string>)
    requires from <= |lines|
    ensures trailing == lines[from..ExpectationsEnd(lines, from)]
  {
    trailing := [];
    var j := from;
    while j < |lines| && IsExpectation(lines[j])
      invariant from <= j <= |lines|
      invariant ExpectationsEnd(lines, from) == ExpectationsEnd(lines, j)
      invariant trailing == lines[from..j]
    {
      trailing := trailing + [lines[j]];
      j := j + 1;
    }
  }

  function Prepend(done: seq<Fence>, rest: Result<seq<Fence>, Unclosed>): Result<seq<Fence>, Unclosed> {
    match rest
    case Ok(fences) => Ok(done + fences)
    case Err(e) => Err(e)
  }

  lemma PrependOne(done: seq<Fence>, fence: Fence, rest: Result<seq<Fence>, Unclosed>)
    ensures Prepend(done, Prepend([fence], rest)) == Prepend(done + [fence], rest)
  {
    if rest.Ok? {
      assert done + ([fence] + rest.value) == done + [fence] + rest.value;
    }
  }

  lemma PrependNone(rest: Result<seq<Fence>, Unclosed>)
    ensures Prepend([], rest) == rest
  {
    if rest.Ok? {
      assert [] + rest.value == rest.value;
    }
  }

  /** Every top-level fence of a page, or the first one that never closes. */
  method ParseFences(text: string) returns (r: Result<seq<Fence>, Unclosed>)
    ensures r == FencesFrom(Split(text, '\n'), 0)
  {
    hide Split, Opens, Strip, CloserFrom, FencesFrom, FenceAt;
    var lines := Split(text, '\n');
    var fences: seq<Fence> := [];
    var i := 0;
    PrependNone(FencesFrom(lines, 0));
    while i < |lines|
      invariant 0 <= i <= |lines|
      invariant FencesFrom(lines, 0) == Prepend(fences, FencesFrom(lines, i))
    {
      FencesNext(lines, i);
      var opener := Opens(lines[i]);
      if opener.None? {
        i := i + 1;
        continue;
      }
      var o := opener.value;
      var body, close := ReadBody(lines, i + 1, o);
      if close == |lines| {
        return Err(Unclosed(i + 1, o.marker));
      }
      var trailing := ReadTrailing(lines, close + 1);
      var fence := Fence(i + 1, o.marker, Strip(o.info), body, trailing);
      assert fence == FenceAt(lines, i, o, close) by { FenceParts(lines, i, o, close); }
      PrependOne(fences, fence, FencesFrom(lines, close + 1));
      fences := fences + [fence];
      i := close + 1;
    }
    NoFencesLeft(lines);
    assert fences + [] == fences;
    r := Ok(fences);
  }

  lemma FencesNext(lines: seq<string>, i: nat)
    requires i < |lines|
    ensures match Opens(lines[i])
            case None => FencesFrom(lines, i) == FencesFrom(lines, i + 1)
            case Some(o) =>
              var close := CloserFrom(lines, i + 1, o.marker);
              FencesFrom(lines, i) ==
              if close == |lines| then Err(Unclosed(i + 1, o.marker))
              else Prepend([FenceAt(lines, i, o, close)], FencesFrom(lines, close + 1))
  {
    hide Opens, CloserFrom, FenceAt;
  }

  lemma NoFencesLeft(lines: seq<string>)
    ensures FencesFrom(lines, |lines|) == Ok([])
  {
  }

  lemma FenceParts(lines: seq<string>, i: nat, o: Opener, close: nat)
    requires i < close < |lines|
    ensures FenceAt(lines, i, o, close) ==
            Fence(i + 1, o.marker, Strip(o.info), Dedented(lines[i + 1..close], o.indent),
                  lines[close + 1..ExpectationsEnd(lines, close + 1)])
  {
    hide Strip, Dedented;
  }

  /** Line `k`, counted from 0, is the opener, the closer or the content of `f`. */
  predicate Covers(f: Fence, k: int) {
    f.line - 1 <= k <= f.line + |f.body|
  }

  predicate Covered(fences: seq<Fence>, k: int) {
    exists n :: 0 <= n < |fences| && Covers(fences[n], k)
  }

  /** What `lines` must hold for `f` to be one of its fences. */
  predicate IsFenceOf(lines: seq<string>, f: Fence) {
    var start, close := f.line - 1, f.line + |f.body|;
    && 0 <= start < close < |lines|
    && Opens(lines[start]).Some?
    && var o := Opens(lines[start]).value;
    && o.marker == f.marker && Strip(o.info) == f.info
    && f.body == Dedented(lines[start + 1..close], o.indent)
    && Closes(lines[close], f.marker)
    && (forall k :: start < k < close ==> !Closes(lines[k], f.marker))
    && close + 1 + |f.trailing| <= |lines|
    && f.trailing == lines[close + 1..close + 1 + |f.trailing|]
    && (forall k :: close < k <= close + |f.trailing| ==> IsExpectation(lines[k]))
  }

  /** The parse is sound: each fence is a fence of the page. */
  lemma {:induction false} FencesAreThePages(lines: seq<string>, i: nat, n: nat)
    requires i <= |lines| && FencesFrom(lines, i).Ok? && n < |FencesFrom(lines, i).value|
    ensures i < FencesFrom(lines, i).value[n].line && IsFenceOf(lines, FencesFrom(lines, i).value[n])
    decreases |lines| - i
  {
    hide Opens, FenceAt, IsFenceOf, CloserFrom;
    match Opens(lines[i])
    case None => FencesAreThePages(lines, i + 1, n);
    case Some(o) =>
      var close := CloserFrom(lines, i + 1, o.marker);
      if n == 0 {
        FenceIsOfPage(lines, i, o, close);
      } else {
        FencesAreThePages(lines, close + 1, n - 1);
      }
  }

  /** The fences are in page order and apart. */
  lemma {:induction false} FencesAreApart(lines: seq<string>, i: nat, m: nat, n: nat)
    requires i <= |lines| && FencesFrom(lines, i).Ok? && m < n < |FencesFrom(lines, i).value|
    ensures var fences := FencesFrom(lines, i).value;
            fences[m].line + |fences[m].body| < fences[n].line - 1
    decreases |lines| - i
  {
    hide Opens, FenceAt, IsFenceOf, CloserFrom;
    match Opens(lines[i])
    case None => FencesAreApart(lines, i + 1, m, n);
    case Some(o) =>
      var close := CloserFrom(lines, i + 1, o.marker);
      if m == 0 {
        FenceIsOfPage(lines, i, o, close);
        FencesAreThePages(lines, close + 1, n - 1);
      } else {
        FencesAreApart(lines, close + 1, m - 1, n - 1);
      }
  }

  lemma FenceIsOfPage(lines: seq<string>, i: nat, o: Opener, close: nat)
    requires i < close < |lines| && Opens(lines[i]) == Some(o) && close == CloserFrom(lines, i + 1, o.marker)
    ensures var f := FenceAt(lines, i, o, close);
            f.line == i + 1 && f.line + |f.body| == close && IsFenceOf(lines, f)
  {
    hide Opens, Closes, Strip, Dedented, IsExpectation, CloserFrom, ExpectationsEnd;
    CloserIsFirst(lines, i + 1, o.marker);
    ExpectationsRun(lines, close + 1);
  }

  /** No fence parsed from line `i` covers a line above it. */
  lemma FencesStartBelow(lines: seq<string>, i: nat, k: int)
    requires i <= |lines| && FencesFrom(lines, i).Ok? && k < i
    ensures !Covered(FencesFrom(lines, i).value, k)
  {
    var fences := FencesFrom(lines, i).value;
    forall n | 0 <= n < |fences|
      ensures !Covers(fences[n], k)
    {
      FencesAreThePages(lines, i, n);
    }
  }

  /** The parse is complete: a line outside every fence opens none. */
  lemma {:induction false} OpenersAreCovered(lines: seq<string>, i: nat, k: nat)
    requires i <= k < |lines| && FencesFrom(lines, i).Ok? && Opens(lines[k]).Some?
    ensures Covered(FencesFrom(lines, i).value, k)
    decreases |lines| - i
  {
    hide Opens, FenceAt, Covered, CloserFrom, IsFenceOf;
    match Opens(lines[i])
    case None => OpenersAreCovered(lines, i + 1, k);
    case Some(o) =>
      var close := CloserFrom(lines, i + 1, o.marker);
      CoveredSplits(FenceAt(lines, i, o, close), FencesFrom(lines, close + 1).value, k);
      FenceIsOfPage(lines, i, o, close);
      if close < k {
        OpenersAreCovered(lines, close + 1, k);
      }
  }

  lemma NoneCovered(k: int)
    ensures !Covered([], k)
  {
  }

  lemma CoveredSplits(first: Fence, rest: seq<Fence>, k: int)
    ensures Covered([first] + rest, k) <==> Covers(first, k) || Covered(rest, k)
  {
    var fences := [first] + rest;
    assert fences[0] == first && forall n :: 0 <= n < |rest| ==> fences[n + 1] == rest[n];
    if Covers(first, k) {
      assert Covers(fences[0], k);
    }
    if Covered(rest, k) {
      var n :| 0 <= n < |rest| && Covers(rest[n], k);
      assert Covers(fences[n + 1], k);
    }
  }
}
