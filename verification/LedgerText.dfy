/** Rewriting some documents' lines of the ledger (`doc_claims.py`). */
module LedgerText {
  import opened Ordering
  import opened Text
  import opened Ledger
  import opened Sequences

  /** The lines, each with its line break. */
  function Unlines(lines: seq<string>): string {
    if lines == [] then "" else lines[0] + ['\n'] + Unlines(lines[1..])
  }

  /** A data line that stays: it names no document, or none whose lines are replaced. */
  predicate Stays(line: string, drop: set<string>) {
    var fields := Split(line, '\t');
    |fields| < 2 || fields[1] !in drop
  }

  function Body(existing: string, add: set<Line>, drop: set<string>): set<string> {
    (set line | line in DataOf(existing) && Stays(line, drop)) + AllWritten(add)
  }

  function Rewritten(existing: string, add: set<Line>, drop: set<string>): string {
    Unlines(CommentsOf(existing) + Sorted(Body(existing, add, drop)))
  }

  /** The lines that stay, one at a time. */
  function Staying(lines: seq<string>, drop: set<string>): set<string> {
    if lines == [] then {}
    else
      var last := lines[|lines| - 1];
      Staying(lines[..|lines| - 1], drop) + if IsData(last) && Stays(last, drop) then {last} else {}
  }

  lemma {:induction false} StayingIs(lines: seq<string>, drop: set<string>)
    ensures Staying(lines, drop) == set line | line in lines && IsData(line) && Stays(line, drop)
  {
    hide Stays, IsData;
    if lines != [] {
      StayingIs(lines[..|lines| - 1], drop);
      assert lines == lines[..|lines| - 1] + [lines[|lines| - 1]];
    }
  }

  /** The ledger with the dropped documents' lines replaced by the added ones: its comments
      first, then every line sorted, once. */
  method RewriteLedger(existing: string, add: set<Line>, drop: set<string>) returns (text: string)
    ensures text == Rewritten(existing, add, drop)
  {
    hide Unlines, Split, IsComment, IsData, Sorted, StrictlySorted, Written;
    var lines := Split(existing, '\n');
    var head: seq<string>, body: set<string> := [], {};
    for k := 0 to |lines|
      invariant head == Filter(lines[..k], line => IsComment(line))
      invariant body == Staying(lines[..k], drop)
    {
      assert lines[..k + 1][..k] == lines[..k];
      var line := lines[k];
      if IsComment(line) {
        head := head + [line];
      }
      var fields := Split(line, '\t');
      if IsData(line) {
        if |fields| < 2 || fields[1] !in drop {
          body := body + {line};
        }
      }
    }
    assert lines[..|lines|] == lines;
    BodyIs(existing, add, drop);
    body := body + AllWritten(add);
    text := Unlines(head + Sorted(body));
  }

  lemma BodyIs(existing: string, add: set<Line>, drop: set<string>)
    ensures Body(existing, add, drop) == Staying(Split(existing, '\n'), drop) + AllWritten(add)
  {
    hide Stays, IsData, Split, Written;
    StayingIs(Split(existing, '\n'), drop);
  }

  // --- Reading what was written ---

  predicate Unbroken(lines: seq<string>) {
    forall k :: 0 <= k < |lines| ==> '\n' !in lines[k]
  }

  lemma {:induction false} SplitUnlines(lines: seq<string>)
    requires Unbroken(lines)
    ensures Split(Unlines(lines), '\n') == lines + [""]
  {
    if lines == [] {
      assert Split("", '\n') == [""];
    } else {
      hide Split;
      SplitUnlines(lines[1..]);
      SplitHead(lines[0], Unlines(lines[1..]), '\n');
      assert [lines[0]] + (lines[1..] + [""]) == lines + [""];
    }
  }

  lemma {:induction false} FilterAppend(a: seq<string>, b: seq<string>, keep: string -> bool)
    ensures Filter(a + b, keep) == Filter(a, keep) + Filter(b, keep)
    decreases |b|
  {
    if b == [] {
      assert a + b == a;
    } else {
      var n := |b| - 1;
      FilterAppend(a, b[..n], keep);
      assert (a + b)[..|a + b| - 1] == a + b[..n] && (a + b)[|a + b| - 1] == b[n];
      var last := if keep(b[n]) then [b[n]] else [];
      Assoc(Filter(a, keep), Filter(b[..n], keep), last);
    }
  }

  lemma {:induction false} FilterAll(lines: seq<string>, keep: string -> bool)
    requires forall k :: 0 <= k < |lines| ==> keep(lines[k])
    ensures Filter(lines, keep) == lines
  {
    if lines != [] {
      var n := |lines| - 1;
      FilterAll(lines[..n], keep);
      LastOf(lines);
    }
  }

  lemma LastOf(lines: seq<string>)
    requires lines != []
    ensures lines[..|lines| - 1] + [lines[|lines| - 1]] == lines
  {
  }

  lemma {:induction false} FilterNone(lines: seq<string>, keep: string -> bool)
    requires forall k :: 0 <= k < |lines| ==> !keep(lines[k])
    ensures Filter(lines, keep) == []
  {
    if lines != [] {
      FilterNone(lines[..|lines| - 1], keep);
    }
  }

  /** The first lines pass a test and the others fail it, or the other way round. */
  lemma FilterSplit(head: seq<string>, body: seq<string>, keep: string -> bool)
    requires forall k :: 0 <= k < |head| ==> keep(head[k])
    requires forall k :: 0 <= k < |body| ==> !keep(body[k])
    ensures Filter(head + body, keep) == head && Filter(body + head, keep) == head
  {
    hide Filter;
    FilterAppend(head, body, keep);
    FilterAppend(body, head, keep);
    FilterAll(head, keep);
    FilterNone(body, keep);
    assert head + [] == head && [] + head == head;
  }

  /** Comments then data lines are read back as such. */
  lemma ReadBack(head: seq<string>, body: seq<string>)
    requires Unbroken(head) && Unbroken(body)
    requires forall k :: 0 <= k < |head| ==> IsComment(head[k])
    requires forall k :: 0 <= k < |body| ==> IsData(body[k])
    ensures CommentsOf(Unlines(head + body)) == head && DataOf(Unlines(head + body)) == body
  {
    hide Unlines, Split, Filter, Strip;
    SplitUnlines(head + body);
    BlankIsNoData();
    FilterSplit(head, body + [""], line => IsComment(line));
    Assoc(head, body, [""]);
    DataSplit(head, body);
  }

  lemma DataSplit(head: seq<string>, body: seq<string>)
    requires forall k :: 0 <= k < |head| ==> IsComment(head[k])
    requires forall k :: 0 <= k < |body| ==> IsData(body[k])
    ensures Filter((head + body) + [""], line => IsData(line)) == body
  {
    hide Filter, Strip;
    var keep: string -> bool := line => IsData(line);
    BlankIsNoData();
    FilterAppend(head + body, [""], keep);
    FilterSplit(body, head, keep);
    FilterNone([""], keep);
    assert body + [] == body;
  }

  lemma BlankIsNoData()
    ensures !IsData("")
  {
  }

  lemma {:induction false} JoinHasNo(parts: seq<string>, c: char)
    requires c != '\t' && forall k :: 0 <= k < |parts| ==> c !in parts[k]
    ensures c !in Join(parts, '\t')
  {
    if |parts| > 1 {
      JoinHasNo(parts[1..], c);
    }
  }

  lemma WrittenIsData(l: Line)
    requires Plain(l)
    ensures IsData(Written(l)) && '\n' !in Written(l)
  {
    hide IsHash;
    PlainFields(l);
    JoinHasNo(Fields(l), '\n');
    assert Written(l)[0] == l.kind[0];
    StripKeeps(Written(l));
  }

  lemma {:induction false} RStripKeeps(s: string)
    requires s != "" && !IsSpace(s[0])
    ensures RStrip(s) != ""
  {
    if IsSpace(s[|s| - 1]) {
      RStripKeeps(s[..|s| - 1]);
    }
  }

  lemma StripKeeps(s: string)
    requires s != "" && !IsSpace(s[0])
    ensures Strip(s) != ""
  {
    RStripKeeps(s);
  }

  lemma BodyIsData(existing: string, add: set<Line>, drop: set<string>, line: string)
    requires (forall l :: l in add ==> Plain(l)) && line in Body(existing, add, drop)
    ensures IsData(line) && '\n' !in line
  {
    hide Written, IsData, Plain, Stays;
    if line in AllWritten(add) {
      var l :| l in add && Written(l) == line;
      WrittenIsData(l);
    }
  }

  /** What the rewritten ledger holds: the same comments, and the body sorted once. */
  lemma RewrittenHolds(existing: string, add: set<Line>, drop: set<string>)
    requires forall l :: l in add ==> Plain(l)
    ensures var text := Rewritten(existing, add, drop);
            CommentsOf(text) == CommentsOf(existing) && DataOf(text) == Sorted(Body(existing, add, drop))
  {
    hide Unlines, Body, IsData, Plain, Split;
    var head, body := CommentsOf(existing), Sorted(Body(existing, add, drop));
    forall k | 0 <= k < |body| ensures IsData(body[k]) && '\n' !in body[k] {
      assert body[k] in body;
      BodyIsData(existing, add, drop, body[k]);
    }
    forall k | 0 <= k < |head| ensures IsComment(head[k]) && '\n' !in head[k] {
      assert head[k] in head;
    }
    ReadBack(head, body);
  }

  // --- What it keeps ---

  /** The other documents' lines are untouched, and the dropped documents' lines are exactly the
      added ones. */
  lemma OthersUntouched(existing: string, add: set<Line>, drop: set<string>, line: string)
    requires forall l :: l in add ==> Plain(l) && l.document in drop
    ensures var now := DataOf(Rewritten(existing, add, drop));
            if Stays(line, drop) then line in now <==> line in DataOf(existing)
            else line in now <==> line in AllWritten(add)
  {
    hide Rewritten, Stays, DataOf, Written, Plain;
    RewrittenHolds(existing, add, drop);
    if line in AllWritten(add) {
      var l :| l in add && Written(l) == line;
      AddedGoes(l, drop);
    }
  }

  lemma AddedGoes(l: Line, drop: set<string>)
    requires Plain(l)
    ensures Stays(Written(l), drop) <==> l.document !in drop
  {
    hide Join, Split, IsLedgerKind, IsHash;
    PlainFields(l);
    SplitJoin(Fields(l), '\t');
  }

  /** Rewriting again changes nothing. */
  lemma RewritingIsIdempotent(existing: string, add: set<Line>, drop: set<string>)
    requires forall l :: l in add ==> Plain(l)
    ensures Rewritten(Rewritten(existing, add, drop), add, drop) == Rewritten(existing, add, drop)
  {
    hide DataOf, CommentsOf, Stays, Written, Plain, Unlines;
    var once := Rewritten(existing, add, drop);
    assert CommentsOf(once) == CommentsOf(existing) && DataOf(once) == Sorted(Body(existing, add, drop)) by {
      RewrittenHolds(existing, add, drop);
    }
    SameBody(existing, once, add, drop);
  }

  lemma SameBody(existing: string, once: string, add: set<Line>, drop: set<string>)
    requires DataOf(once) == Sorted(Body(existing, add, drop))
    ensures Body(once, add, drop) == Body(existing, add, drop)
  {
    hide DataOf, Stays, Written;
    forall line ensures line in Body(once, add, drop) <==> line in Body(existing, add, drop) {
      assert line in DataOf(once) <==> line in Body(existing, add, drop);
    }
  }

  function Others(want: set<Line>, drop: set<string>): set<Line> {
    set l | l in want && l.document !in drop
  }

  /** A ledger that meets the rule still does, with the dropped documents' wanted lines replaced
      by the added ones. */
  lemma RuleIsKept(existing: string, want: set<Line>, add: set<Line>, drop: set<string>)
    requires (forall l :: l in want ==> Plain(l)) && (forall l :: l in add ==> Plain(l))
    requires Meets(existing, want)
    ensures Meets(Rewritten(existing, add, drop), Others(want, drop) + add)
  {
    hide DataOf, Stays, Written, Plain, Rewritten;
    RewrittenHolds(existing, add, drop);
    var wanted := Others(want, drop) + add;
    forall line ensures line in Body(existing, add, drop) <==> line in AllWritten(wanted) {
      if line in DataOf(existing) && Stays(line, drop) {
        var l :| l in want && Written(l) == line;
        AddedGoes(l, drop);
      }
      if line in AllWritten(wanted) && line !in AllWritten(add) {
        var l :| l in wanted && Written(l) == line;
        AddedGoes(l, drop);
        assert line in AllWritten(want);
      }
    }
    assert Body(existing, add, drop) == AllWritten(wanted);
  }

  // --- Which lines go ---

  /** The line's second field is a document whose lines are replaced, whatever its other fields. */
  ghost predicate NamesDropped(line: string, drop: set<string>) {
    exists kind, document, rest :: IsNamed(line, kind, document, rest) && document in drop
  }

  predicate IsNamed(line: string, kind: string, document: string, rest: string) {
    && line == kind + "\t" + document + rest && '\t' !in kind && '\t' !in document
    && (rest != "" ==> rest[0] == '\t')
  }

  /** A data line goes exactly when it is one of those, well formed or not. */
  lemma StaysIs(line: string, drop: set<string>)
    ensures Stays(line, drop) <==> !NamesDropped(line, drop)
  {
    hide Split, Join;
    var fields := Split(line, '\t');
    if |fields| >= 2 {
      var rest := SecondNamed(line);
      if fields[1] in drop {
        assert IsNamed(line, fields[0], fields[1], rest);
      }
    }
    if kind, document, rest :| IsNamed(line, kind, document, rest) && document in drop {
      NamedSecond(line, kind, document, rest);
    }
  }

  lemma SecondNamed(line: string) returns (rest: string)
    requires |Split(line, '\t')| >= 2
    ensures IsNamed(line, Split(line, '\t')[0], Split(line, '\t')[1], rest)
  {
    hide Split;
    var fields := Split(line, '\t');
    JoinSplit(line, '\t');
    var tail := fields[1..];
    rest := if |tail| == 1 then "" else "\t" + Join(tail[1..], '\t');
    assert Join(tail, '\t') == fields[1] + rest;
    assert line == fields[0] + ['\t'] + Join(tail, '\t');
  }

  lemma NamedSecond(line: string, kind: string, document: string, rest: string)
    requires IsNamed(line, kind, document, rest)
    ensures |Split(line, '\t')| >= 2 && Split(line, '\t')[1] == document
  {
    hide Split;
    assert line == kind + ['\t'] + (document + rest);
    SplitHead(kind, document + rest, '\t');
    if rest == "" {
      assert document + rest == document;
      SplitWhole(document, '\t');
    } else {
      assert document + rest == document + ['\t'] + rest[1..];
      SplitHead(document, rest[1..], '\t');
    }
  }
}
