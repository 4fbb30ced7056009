/** The line splitter of `doc_claims.py`: front matter, fences and HTML comments go blank. */
module VisibleLines {
  import opened Text
  import opened Wrappers
  import opened FenceSyntax
  import opened Fences
  import opened Sequences

  const FRONT_MATTER_LINES := 200

  // --- HTML comments ---

  /** What is left of a text after deleting comments; `open` when the last one has no end. */
  datatype Scan = Scan(text: string, open: bool)

  /** What opens a comment and what closes it. */
  datatype Marks = Marks(opener: string, closer: string)

  const COMMENT := Marks("<!--", "-->")

  predicate Proper(m: Marks) {
    m.opener != "" && m.closer != "" && '\n' !in m.opener && '\n' !in m.closer
  }

  /** Every comment deleted from a whole text and its newlines kept, one character at a
      time; `open` says whether the text begins inside a comment. */
  function Uncomment(m: Marks, s: string, open: bool): Scan
    requires Proper(m)
    decreases |s|
  {
    if s == "" then Scan("", open)
    else if open then
      if m.closer <= s then Uncomment(m, s[|m.closer|..], false)
      else if s[0] == '\n' then Prefixed("\n", Uncomment(m, s[1..], true))
      else Uncomment(m, s[1..], true)
    else if m.opener <= s then Uncomment(m, s[|m.opener|..], true)
    else Prefixed([s[0]], Uncomment(m, s[1..], false))
  }

  function Prefixed(head: string, rest: Scan): Scan {
    rest.(text := head + rest.text)
  }

  lemma {:induction false} UncommentPlain(m: Marks, s: string, k: nat)
    requires Proper(m) && k <= |s|
    requires forall i :: 0 <= i < k ==> !OccursAt(s, m.opener, i)
    ensures Uncomment(m, s, false) == Prefixed(s[..k], Uncomment(m, s[k..], false))
    decreases k
  {
    if k == 0 {
      assert s[0..] == s;
      PrefixedTwice("", Uncomment(m, s, false).text, Scan("", false));
    } else {
      assert !OccursAt(s, m.opener, 0) && s[0..] == s;
      forall i | 0 <= i < k - 1
        ensures !OccursAt(s[1..], m.opener, i)
      {
        assert !OccursAt(s, m.opener, i + 1) && s[1..][i..] == s[i + 1..];
      }
      UncommentPlain(m, s[1..], k - 1);
      assert s[1..][k - 1..] == s[k..];
      assert [s[0]] + s[1..][..k - 1] == s[..k];
      PrefixedTwice([s[0]], s[1..][..k - 1], Uncomment(m, s[k..], false));
    }
  }

  lemma {:induction false} UncommentInside(m: Marks, s: string, k: nat)
    requires Proper(m) && k <= |s| && '\n' !in s
    requires forall i :: 0 <= i < k ==> !OccursAt(s, m.closer, i)
    ensures Uncomment(m, s, true) == Uncomment(m, s[k..], true)
    decreases k
  {
    if k == 0 {
      assert s[0..] == s;
    } else {
      assert !OccursAt(s, m.closer, 0) && s[0..] == s;
      forall i | 0 <= i < k - 1
        ensures !OccursAt(s[1..], m.closer, i)
      {
        assert !OccursAt(s, m.closer, i + 1) && s[1..][i..] == s[i + 1..];
      }
      UncommentInside(m, s[1..], k - 1);
      assert s[1..][k - 1..] == s[k..];
    }
  }

  lemma PrefixedTwice(a: string, b: string, rest: Scan)
    ensures Prefixed(a, Prefixed(b, rest)) == Prefixed(a + b, rest)
  {
    assert a + (b + rest.text) == a + b + rest.text;
  }

  lemma NoneBefore(line: string, pattern: string, at: nat)
    requires at <= |line|
    ensures var found := Find(line, pattern, at);
            var k := if found < 0 then |line| - at else found - at;
            && (forall i :: 0 <= i < k ==> !OccursAt(line[at..], pattern, i))
            && (found >= 0 ==> pattern <= line[found..])
            && line[at..][k..] == (if found < 0 then "" else line[found..])
  {
    FindIsFirst(line, pattern, at);
    var found := Find(line, pattern, at);
    var k := if found < 0 then |line| - at else found - at;
    forall i | 0 <= i < k
      ensures !OccursAt(line[at..], pattern, i)
    {
      assert !OccursAt(line, pattern, at + i) && line[at..][i..] == line[at + i..];
    }
  }

  lemma UncommentTo(m: Marks, line: string, at: nat)
    requires at <= |line| && Proper(m)
    ensures var start := Find(line, m.opener, at);
            Uncomment(m, line[at..], false) ==
            if start < 0 then Scan(line[at..], false)
            else Prefixed(line[at..start], Uncomment(m, line[start + |m.opener|..], true))
  {
    hide Find, OccursAt;
    NoneBefore(line, m.opener, at);
    var start := Find(line, m.opener, at);
    if start < 0 {
      UncommentPlain(m, line[at..], |line| - at);
      assert line[at..] + "" == line[at..];
    } else {
      UncommentPlain(m, line[at..], start - at);
      assert line[start..][|m.opener|..] == line[start + |m.opener|..];
    }
  }

  lemma UncommentFrom(m: Marks, line: string, at: nat)
    requires at <= |line| && Proper(m) && '\n' !in line
    ensures var end := Find(line, m.closer, at);
            Uncomment(m, line[at..], true) ==
            if end < 0 then Scan("", true) else Uncomment(m, line[end + |m.closer|..], false)
  {
    hide Find, OccursAt;
    NoneBefore(line, m.closer, at);
    var end := Find(line, m.closer, at);
    UncommentInside(m, line[at..], if end < 0 then |line| - at else end - at);
    if end >= 0 {
      assert line[end..][|m.closer|..] == line[end + |m.closer|..];
    }
  }

  /** The repeated search for marks gives what deleting all comments at once gives. */
  method StripComments(m: Marks, line: string) returns (out: string, open: bool)
    requires Proper(m) && '\n' !in line
    ensures Scan(out, open) == Uncomment(m, line, false)
  {
    hide Uncomment, Find;
    out := "";
    var position := 0;
    assert line[0..] == line;
    PrefixedNothing(Uncomment(m, line, false));
    while true
      invariant 0 <= position <= |line|
      invariant Uncomment(m, line, false) == Prefixed(out, Uncomment(m, line[position..], false))
      decreases |line| - position
    {
      UncommentTo(m, line, position);
      var start := Find(line, m.opener, position);
      if start < 0 {
        return out + line[position..], false;
      }
      PrefixedTwice(out, line[position..start], Uncomment(m, line[start + |m.opener|..], true));
      out := out + line[position..start];
      UncommentFrom(m, line, start + |m.opener|);
      var end := Find(line, m.closer, start + |m.opener|);
      if end < 0 {
        assert out + "" == out;
        return out, true;
      }
      position := end + |m.closer|;
    }
  }

  lemma PrefixedNothing(rest: Scan)
    ensures Prefixed("", rest) == rest
  {
    assert "" + rest.text == rest.text;
  }

  lemma UncommentNext(m: Marks, s: string, open: bool)
    requires s != "" && Proper(m)
    ensures var mark := if open then m.closer else m.opener;
            Uncomment(m, s, open) ==
            if mark <= s then Uncomment(m, s[|mark|..], !open)
            else Prefixed(if open && s[0] != '\n' then "" else [s[0]], Uncomment(m, s[1..], open))
  {
    PrefixedNothing(Uncomment(m, s[1..], open));
  }

  lemma UncommentBreak(m: Marks, rest: string, open: bool)
    requires Proper(m)
    ensures Uncomment(m, "\n" + rest, open) == Prefixed("\n", Uncomment(m, rest, open))
  {
    var mark := if open then m.closer else m.opener;
    PrefixInLine(mark, "", rest);
    assert "" + "\n" + rest == "\n" + rest;
    UncommentNext(m, "\n" + rest, open);
    assert ("\n" + rest)[1..] == rest;
  }

  lemma TailOf(a: string, tail: string, k: nat)
    requires k <= |a|
    ensures (a + tail)[k..] == a[k..] + tail
  {
  }

  lemma {:induction false} UncommentOnto(m: Marks, a: string, rest: string, open: bool)
    requires '\n' !in a && Proper(m)
    ensures var first := Uncomment(m, a, open);
            Uncomment(m, a + ("\n" + rest), open) == Prefixed(first.text + "\n", Uncomment(m, rest, first.open))
    decreases |a|
  {
    hide Uncomment;
    var tail, mark := "\n" + rest, if open then m.closer else m.opener;
    if a == "" {
      assert "" + tail == tail && "" + "\n" == "\n";
      UncommentBreak(m, rest, open);
      UncommentNothing(m, open);
    } else {
      assert a + "\n" + rest == a + tail;
      PrefixInLine(mark, a, rest);
      UncommentNext(m, a + tail, open);
      UncommentNext(m, a, open);
      if mark <= a {
        TailOf(a, tail, |mark|);
        UncommentOnto(m, a[|mark|..], rest, !open);
      } else {
        TailOf(a, tail, 1);
        UncommentOnto(m, a[1..], rest, open);
        var first := Uncomment(m, a[1..], open);
        var head := if open then "" else [a[0]];
        assert head + (first.text + "\n") == (head + first.text) + "\n";
        PrefixedTwice(head, first.text + "\n", Uncomment(m, rest, first.open));
      }
    }
  }

  lemma UncommentNothing(m: Marks, open: bool)
    requires Proper(m)
    ensures Uncomment(m, "", open) == Scan("", open)
  {
  }

  /** A line break carries over only whether a comment is open. */
  lemma UncommentLine(m: Marks, a: string, rest: string, open: bool)
    requires '\n' !in a && Proper(m)
    ensures var first := Uncomment(m, a, open);
            Uncomment(m, a + "\n" + rest, open) == Prefixed(first.text + "\n", Uncomment(m, rest, first.open))
  {
    hide Uncomment;
    UncommentOnto(m, a, rest, open);
    assert a + "\n" + rest == a + ("\n" + rest);
  }

  lemma PrefixInLine(pattern: string, a: string, rest: string)
    requires '\n' !in pattern
    ensures pattern <= a + "\n" + rest <==> pattern <= a
  {
    var s := a + "\n" + rest;
    if |a| < |pattern| {
      assert s[|a|] == '\n';
      assert pattern[|a|] in pattern;
    }
  }

  // --- The line automaton ---

  /** What the scanner is inside of: nothing, a comment or a fence, and from which line. */
  datatype Mode = Prose | Comment(line: nat) | Fenced(marker: string, line: nat)

  datatype SplitError = UnclosedFence(line: nat, marker: string) | UnclosedComment(line: nat)

  predicate ValidMode(mode: Mode) {
    mode.Fenced? ==> mode.marker != ""
  }

  /** One line, numbered from 0: the mode after it and what stays visible of it. */
  function ScanLine(mode: Mode, line: string, number: nat): (r: (Mode, string))
    requires ValidMode(mode)
    ensures ValidMode(r.0)
  {
    match mode
    case Fenced(marker, _) => (if Closes(line, marker) then Prose else mode, "")
    case Comment(_) =>
      if Find(line, COMMENT.closer, 0) < 0 then (mode, "")
      else
        var rest := Uncomment(COMMENT, line, true);
        (if rest.open then Comment(number + 1) else Prose, rest.text)
    case Prose =>
      match Opens(line)
      case Some(o) => (Fenced(o.marker, number + 1), "")
      case None =>
        var rest := Uncomment(COMMENT, line, false);
        (if rest.open then Comment(number + 1) else Prose, rest.text)
  }

  function ScanFrom(mode: Mode, raw: seq<string>, number: nat): (r: (Mode, seq<string>))
    requires ValidMode(mode) && number <= |raw|
    ensures ValidMode(r.0) && |r.1| == |raw| - number
    decreases |raw| - number
  {
    if number == |raw| then (mode, [])
    else
      var (next, out) := ScanLine(mode, raw[number], number);
      var (last, rest) := ScanFrom(next, raw, number + 1);
      (last, [out] + rest)
  }

  /** `text.replace("\r\n", "\n").replace("\r", "\n")`. */
  function Newlines(text: string): (r: string)
    ensures '\r' !in r
    ensures '\r' !in text ==> r == text
    decreases |text|
  {
    if text == "" then ""
    else if "\r\n" <= text then
      assert text[0] == '\r';
      "\n" + Newlines(text[2..])
    else (if text[0] == '\r' then "\n" else [text[0]]) + Newlines(text[1..])
  }

  predicate EndsFrontMatter(line: string) {
    Strip(line) == "---" || Strip(line) == "..."
  }

  function FrontMatterEndFrom(raw: seq<string>, number: nat): (end: nat)
    ensures end != 0 ==> number < end <= |raw| && end <= FRONT_MATTER_LINES && EndsFrontMatter(raw[end - 1])
    ensures forall k :: number <= k < |raw| && k < FRONT_MATTER_LINES && (end == 0 || k < end - 1)
                        ==> !EndsFrontMatter(raw[k])
    decreases |raw| - number
  {
    if number >= |raw| || number >= FRONT_MATTER_LINES then 0
    else if EndsFrontMatter(raw[number]) then number + 1
    else FrontMatterEndFrom(raw, number + 1)
  }

  /** How many lines the front matter takes, 0 when the page has none. */
  function FrontMatterEnd(raw: seq<string>): (end: nat)
    ensures end <= |raw|
  {
    if raw != [] && Strip(raw[0]) == "---" then FrontMatterEndFrom(raw, 1) else 0
  }

  /** The first `n` lines are front matter: the first is `---`, and the last the next `---` or
      `...` among the page's first 200 lines; a page without both has none. */
  predicate IsFrontMatter(raw: seq<string>, n: nat) {
    if n == 0 then raw == [] || Strip(raw[0]) != "---" || forall k: nat :: 1 <= k < 200 ==> !IsRule(raw, k)
    else
      && 2 <= n <= |raw| && n <= 200
      && Strip(raw[0]) == "---" && IsRule(raw, n - 1)
      && forall k: nat :: 1 <= k < n - 1 ==> !IsRule(raw, k)
  }

  predicate IsRule(raw: seq<string>, k: nat) {
    k < |raw| && (Strip(raw[k]) == "---" || Strip(raw[k]) == "...")
  }

  lemma FrontMatterIs(raw: seq<string>, n: nat)
    ensures n == FrontMatterEnd(raw) <==> IsFrontMatter(raw, n)
  {
    hide Strip;
    if IsFrontMatter(raw, n) {
      OneFrontMatter(raw, n);
    }
  }

  lemma OneFrontMatter(raw: seq<string>, n: nat)
    requires IsFrontMatter(raw, n)
    ensures n == FrontMatterEnd(raw)
  {
    hide Strip;
    var end := FrontMatterEnd(raw);
    assert end != 0 ==> IsRule(raw, end - 1);
    assert n != 0 ==> EndsFrontMatter(raw[n - 1]);
  }

  function Visible(text: string): Result<seq<string>, SplitError> {
    var raw := Split(Newlines(text), '\n');
    var start := FrontMatterEnd(raw);
    var (last, out) := ScanFrom(Prose, raw, start);
    match last
    case Fenced(marker, line) => Err(UnclosedFence(line, marker))
    case Comment(line) => Err(UnclosedComment(line))
    case Prose => Ok(seq(start, _ => "") + out)
  }

  // --- The splitter's loop ---

  /** The splitter's own variables. */
  datatype Locals = Locals(fence: Option<string>, fenceLine: nat, inComment: bool, commentLine: nat)
  {
    predicate Valid() {
      fence.Some? ==> fence.value != "" && !inComment
    }

    function Mode(): Mode {
      if fence.Some? then Fenced(fence.value, fenceLine)
      else if inComment then Comment(commentLine) else Prose
    }
  }

  /** The loop body: the splitter's variables after a line, and what is seen of it. */
  method ReadLine(locals: Locals, raw: string, number: nat) returns (next: Locals, out: string)
    requires locals.Valid() && '\n' !in raw
    ensures next.Valid() && (next.Mode(), out) == ScanLine(locals.Mode(), raw, number)
  {
    next := locals;
    if locals.fence.Some? {
      if Closes(raw, locals.fence.value) {
        next := next.(fence := None);
      }
      return next, "";
    }
    var line := raw;
    if locals.inComment {
      UncommentFrom(COMMENT, line, 0);
      assert line[0..] == line;
      var end := Find(line, COMMENT.closer, 0);
      if end < 0 {
        return next, "";
      }
      next := next.(inComment := false);
      line := line[end + |COMMENT.closer|..];
    } else {
      var opener := Opens(line);
      if opener.Some? {
        return next.(fence := Some(opener.value.marker), fenceLine := number + 1), "";
      }
    }
    var open;
    out, open := StripComments(COMMENT, line);
    next := next.(inComment := open, commentLine := if open then number + 1 else next.commentLine);
  }

  /** Where the text proper starts. */
  method ReadFrontMatter(raw: seq<string>) returns (start: nat)
    ensures start == FrontMatterEnd(raw) && IsFrontMatter(raw, start)
  {
    FrontMatterIs(raw, FrontMatterEnd(raw));
    start := 0;
    if raw != [] && Strip(raw[0]) == "---" {
      var number := 1;
      while number < |raw| && number < FRONT_MATTER_LINES
        invariant 1 <= number <= |raw| && start == 0
        invariant FrontMatterEndFrom(raw, 1) == FrontMatterEndFrom(raw, number)
      {
        if EndsFrontMatter(raw[number]) {
          return number + 1;
        }
        number := number + 1;
      }
    }
  }

  function Onto(done: seq<string>, rest: (Mode, seq<string>)): (Mode, seq<string>) {
    (rest.0, done + rest.1)
  }

  lemma ScanAppends(done: seq<string>, mode: Mode, raw: seq<string>, number: nat)
    requires ValidMode(mode) && number < |raw|
    ensures var (next, out) := ScanLine(mode, raw[number], number);
            Onto(done, ScanFrom(mode, raw, number)) == Onto(done + [out], ScanFrom(next, raw, number + 1))
  {
    var (next, out) := ScanLine(mode, raw[number], number);
    var rest := ScanFrom(next, raw, number + 1).1;
    assert done + ([out] + rest) == done + [out] + rest;
  }

  /** The page line by line as the automaton shows it, or its refusal. */
  method ComputeVisibleLines(text: string) returns (r: Result<seq<string>, SplitError>)
    ensures r == Visible(text)
  {
    var raw := Split(Newlines(text), '\n');
    var start := ReadFrontMatter(raw);
    var out := seq(start, _ => "");
    ghost var all := Onto(out, ScanFrom(Prose, raw, start));
    var locals := Locals(None, 0, false, 0);
    var number := start;
    while number < |raw|
      invariant start <= number <= |raw| && locals.Valid()
      invariant all == Onto(out, ScanFrom(locals.Mode(), raw, number))
    {
      ScanAppends(out, locals.Mode(), raw, number);
      var line;
      locals, line := ReadLine(locals, raw[number], number);
      out := out + [line];
      number := number + 1;
    }
    assert out + [] == out;
    if locals.fence.Some? {
      return Err(UnclosedFence(locals.fenceLine, locals.fence.value));
    }
    if locals.inComment {
      return Err(UnclosedComment(locals.commentLine));
    }
    r := Ok(out);
  }

  // --- Streaming removal refines the one-shot form ---

  predicate NoFences(raw: seq<string>) {
    forall k :: 0 <= k < |raw| ==> '\n' !in raw[k] && Opens(raw[k]).None?
  }

  /** A scan's outcome as the one-shot form gives it. */
  function Shown(r: (Mode, seq<string>)): Scan {
    Scan(Join(r.1, '\n'), r.0.Comment?)
  }

  lemma {:induction false} ScanIsOneShot(mode: Mode, raw: seq<string>, number: nat)
    requires number < |raw| && !mode.Fenced? && NoFences(raw)
    ensures !ScanFrom(mode, raw, number).0.Fenced?
    ensures Shown(ScanFrom(mode, raw, number)) == Uncomment(COMMENT, Join(raw[number..], '\n'), mode.Comment?)
    decreases |raw| - number
  {
    var (next, seen) := ScanLine(mode, raw[number], number);
    LineIsOneShot(mode, raw[number], number);
    if number + 1 == |raw| {
      assert raw[number..] == [raw[number]];
      assert ScanFrom(next, raw, |raw|) == (next, []);
      assert [seen] + [] == [seen];
    } else {
      ScanIsOneShot(next, raw, number + 1);
      var rest := ScanFrom(next, raw, number + 1);
      assert ScanFrom(mode, raw, number) == (rest.0, [seen] + rest.1);
      JoinTail(raw, number);
      JoinFirst(seen, rest.1);
      UncommentLine(COMMENT, raw[number], Join(raw[number + 1..], '\n'), mode.Comment?);
    }
  }

  lemma LineIsOneShot(mode: Mode, line: string, number: nat)
    requires !mode.Fenced? && '\n' !in line && Opens(line).None?
    ensures var (next, seen) := ScanLine(mode, line, number);
            !next.Fenced? && Scan(seen, next.Comment?) == Uncomment(COMMENT, line, mode.Comment?)
  {
    UncommentFrom(COMMENT, line, 0);
    assert line[0..] == line;
  }

  lemma JoinFirst(first: string, rest: seq<string>)
    requires rest != []
    ensures Join([first] + rest, '\n') == first + "\n" + Join(rest, '\n')
  {
    assert ([first] + rest)[1..] == rest;
  }

  lemma JoinTail(raw: seq<string>, number: nat)
    requires number + 1 < |raw|
    ensures Join(raw[number..], '\n') == raw[number] + "\n" + Join(raw[number + 1..], '\n')
  {
    assert raw[number..] == [raw[number]] + raw[number + 1..];
    JoinFirst(raw[number], raw[number + 1..]);
  }

  /** On a page with no front matter and no fence opener: joining the visible lines gives
      what deleting every comment from the whole text gives, the page is refused exactly
      when its last comment never closes, and no line is lost or added. */
  lemma StreamingRefinesOneShot(text: string)
    requires IsFrontMatter(Split(Newlines(text), '\n'), 0)
    requires NoFences(Split(Newlines(text), '\n'))
    ensures var whole := Uncomment(COMMENT, Newlines(text), false);
            && (Visible(text).Err? <==> whole.open)
            && (Visible(text).Err? ==> Visible(text).error.UnclosedComment?)
            && (Visible(text).Ok? ==>
                  && Join(Visible(text).value, '\n') == whole.text
                  && |Visible(text).value| == |Split(Newlines(text), '\n')|)
  {
    var raw := Split(Newlines(text), '\n');
    FrontMatterIs(raw, 0);
    ScanIsOneShot(Prose, raw, 0);
    JoinSplit(Newlines(text), '\n');
    assert raw[0..] == raw;
    var (last, out) := ScanFrom(Prose, raw, 0);
    assert seq(0, _ => "") + out == out;
  }

  // --- The two fence scanners agree ---

  /** Line `k` lies inside a fence opened at or after line `i`, closed or not. */
  predicate InFence(lines: seq<string>, i: nat, k: nat)
    requires i <= |lines|
    decreases |lines| - i
  {
    if i == |lines| then false
    else match Opens(lines[i])
      case None => i < k && InFence(lines, i + 1, k)
      case Some(o) =>
        var close := CloserFrom(lines, i + 1, o.marker);
        i <= k <= close || (close < |lines| && close < k && InFence(lines, close + 1, k))
  }

  lemma {:induction false} InFenceIsCovered(lines: seq<string>, i: nat, k: nat)
    requires i <= |lines| && FencesFrom(lines, i).Ok?
    ensures InFence(lines, i, k) <==> Covered(FencesFrom(lines, i).value, k)
    decreases |lines| - i
  {
    hide Opens, FenceAt, Covered, IsFenceOf, CloserFrom;
    if i == |lines| {
      NoneCovered(k);
    } else {
      match Opens(lines[i])
      case None =>
        InFenceIsCovered(lines, i + 1, k);
        if k < i + 1 {
          FencesStartBelow(lines, i + 1, k);
        }
      case Some(o) =>
        var close := CloserFrom(lines, i + 1, o.marker);
        InFenceIsCovered(lines, close + 1, k);
        if k < close + 1 {
          FencesStartBelow(lines, close + 1, k);
        }
        FenceIsOfPage(lines, i, o, close);
        CoveredSplits(FenceAt(lines, i, o, close), FencesFrom(lines, close + 1).value, k);
    }
  }

  lemma UncommentedLine(line: string)
    requires !Contains(line, COMMENT.opener)
    ensures Uncomment(COMMENT, line, false) == Scan(line, false)
  {
    assert line[0..] == line;
    UncommentTo(COMMENT, line, 0);
    FindIsFirst(line, COMMENT.opener, 0);
  }

  function Blanks(n: nat): (r: seq<string>)
    ensures |r| == n
  {
    seq(n, _ => "")
  }

  /** A fence hides its lines up to and with its closer. */
  lemma {:induction false} ScanInsideFence(raw: seq<string>, number: nat, marker: string, from: nat)
    requires number <= |raw| && marker != ""
    ensures var close := CloserFrom(raw, number, marker);
            if close == |raw| then ScanFrom(Fenced(marker, from), raw, number).0 == Fenced(marker, from)
            else ScanFrom(Fenced(marker, from), raw, number) ==
                 Onto(Blanks(close + 1 - number), ScanFrom(Prose, raw, close + 1))
    decreases |raw| - number
  {
    hide Opens, Closes;
    var close := CloserFrom(raw, number, marker);
    if number < close {
      ScanInsideFence(raw, number + 1, marker, from);
      if close < |raw| {
        assert [""] + Blanks(close - number) == Blanks(close + 1 - number);
        var rest := ScanFrom(Prose, raw, close + 1).1;
        assert [""] + (Blanks(close - number) + rest) == [""] + Blanks(close - number) + rest;
      }
    } else if number < |raw| {
      assert [""] == Blanks(1);
    }
  }

  /** Outside the fences opened at or after line `i` no line opens a comment. */
  predicate NoComments(raw: seq<string>, i: nat)
    requires i <= |raw|
  {
    forall k :: i <= k < |raw| && !InFence(raw, i, k) ==> !Contains(raw[k], COMMENT.opener)
  }

  lemma NoCommentsAfter(raw: seq<string>, i: nat)
    requires i < |raw| && NoComments(raw, i)
    ensures match Opens(raw[i])
            case None => !Contains(raw[i], COMMENT.opener) && NoComments(raw, i + 1)
            case Some(o) =>
              var close := CloserFrom(raw, i + 1, o.marker);
              close < |raw| ==> NoComments(raw, close + 1)
  {
    hide Opens, CloserFrom, Contains;
    match Opens(raw[i])
    case None =>
      assert !InFence(raw, i, i);
      forall k | i + 1 <= k < |raw| && !InFence(raw, i + 1, k)
        ensures !Contains(raw[k], COMMENT.opener)
      {
        assert !InFence(raw, i, k);
      }
    case Some(o) =>
      var close := CloserFrom(raw, i + 1, o.marker);
      if close < |raw| {
        forall k | close + 1 <= k < |raw| && !InFence(raw, close + 1, k)
          ensures !Contains(raw[k], COMMENT.opener)
        {
          assert !InFence(raw, i, k);
        }
      }
  }

  /** Both scanners end in the same state. */
  lemma {:induction false} ScannersEndAlike(raw: seq<string>, i: nat)
    requires i <= |raw| && NoComments(raw, i)
    ensures ScanFrom(Prose, raw, i).0 ==
            match FencesFrom(raw, i)
            case Err(e) => Fenced(e.marker, e.line)
            case Ok(_) => Prose
    decreases |raw| - i
  {
    hide Opens, FenceAt, NoComments, CloserFrom, Contains;
    if i < |raw| {
      NoCommentsAfter(raw, i);
      match Opens(raw[i])
      case None =>
        UncommentedLine(raw[i]);
        ScannersEndAlike(raw, i + 1);
      case Some(o) =>
        var close := CloserFrom(raw, i + 1, o.marker);
        ScanInsideFence(raw, i + 1, o.marker, i + 1);
        if close < |raw| {
          ScannersEndAlike(raw, close + 1);
        }
    }
  }

  /** On a page whose fences close, line `k` is blank inside a fence and whole outside. */
  lemma {:induction false} ScannersSeeAlike(raw: seq<string>, i: nat, k: nat)
    requires i <= k < |raw| && NoComments(raw, i) && FencesFrom(raw, i).Ok?
    ensures ScanFrom(Prose, raw, i).1[k - i] == if InFence(raw, i, k) then "" else raw[k]
    decreases |raw| - i
  {
    hide Opens, FenceAt, NoComments, CloserFrom, Contains, ScanFrom;
    NoCommentsAfter(raw, i);
    match Opens(raw[i])
    case None =>
      PlainLineScanned(raw, i);
      if i < k {
        ScannersSeeAlike(raw, i + 1, k);
      }
    case Some(o) =>
      FenceScanned(raw, i);
      var close := CloserFrom(raw, i + 1, o.marker);
      if close < k {
        ScannersSeeAlike(raw, close + 1, k);
      }
  }

  lemma PlainLineScanned(raw: seq<string>, i: nat)
    requires i < |raw| && Opens(raw[i]).None? && !Contains(raw[i], COMMENT.opener)
    ensures ScanFrom(Prose, raw, i).1 == [raw[i]] + ScanFrom(Prose, raw, i + 1).1
  {
    hide Opens, Contains;
    UncommentedLine(raw[i]);
  }

  lemma FenceScanned(raw: seq<string>, i: nat)
    requires i < |raw| && Opens(raw[i]).Some? && CloserFrom(raw, i + 1, Opens(raw[i]).value.marker) < |raw|
    ensures var close := CloserFrom(raw, i + 1, Opens(raw[i]).value.marker);
            ScanFrom(Prose, raw, i).1 == Blanks(close + 1 - i) + ScanFrom(Prose, raw, close + 1).1
  {
    hide Opens, CloserFrom;
    var o := Opens(raw[i]).value;
    var close := CloserFrom(raw, i + 1, o.marker);
    ScanInsideFence(raw, i + 1, o.marker, i + 1);
    assert [""] + Blanks(close - i) == Blanks(close + 1 - i);
    Assoc([""], Blanks(close - i), ScanFrom(Prose, raw, close + 1).1);
  }

  /** With no carriage return, no front matter and no comment opener outside fences, the
      splitter keeps a line's text exactly where it lies outside every fence the parser
      returns, and both refuse the same unclosed fence. */
  lemma ScannersAgree(text: string)
    requires '\r' !in text
    requires IsFrontMatter(Split(text, '\n'), 0)
    requires NoComments(Split(text, '\n'), 0)
    ensures var raw := Split(text, '\n');
            match FencesFrom(raw, 0)
            case Err(e) => Visible(text) == Err(UnclosedFence(e.line, e.marker))
            case Ok(fences) =>
              && Visible(text).Ok? && |Visible(text).value| == |raw|
              && forall k :: 0 <= k < |raw| ==>
                   Visible(text).value[k] == if Covered(fences, k) then "" else raw[k]
  {
    var raw := Split(text, '\n');
    FrontMatterIs(raw, 0);
    hide IsFrontMatter;
    ScannersEndAlike(raw, 0);
    var out := ScanFrom(Prose, raw, 0).1;
    assert seq(0, _ => "") + out == out;
    if FencesFrom(raw, 0).Ok? {
      forall k | 0 <= k < |raw|
        ensures out[k] == if Covered(FencesFrom(raw, 0).value, k) then "" else raw[k]
      {
        ScannersSeeAlike(raw, 0, k);
        InFenceIsCovered(raw, 0, k);
      }
    }
  }
}
