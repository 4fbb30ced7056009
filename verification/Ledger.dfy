/** The ledger of debt and unclassified units (`doc_claims.py`). */
module Ledger {
  import opened Wrappers
  import opened Ordering
  import opened Text
  import opened Sequences

  /** One line: the kind of debt, the document, and the hash of the unit. */
  datatype Line = Line(kind: string, document: string, digest: string)

  const HASH_LENGTH := 12

  predicate IsLedgerKind(kind: string) {
    kind == "untested:T" || kind == "untested:S" || kind == "untested:X" || kind == "untested:A"
    || kind == "exempt:baseline"
  }

  predicate IsHash(s: string) {
    |s| == HASH_LENGTH && forall k :: 0 <= k < |s| ==> '0' <= s[k] <= '9' || 'a' <= s[k] <= 'f'
  }

  function Fields(l: Line): seq<string> {
    [l.kind, l.document, l.digest]
  }

  function Written(l: Line): string {
    Join(Fields(l), '\t')
  }

  function AllWritten(lines: set<Line>): set<string> {
    set l | l in lines :: Written(l)
  }

  predicate IsComment(line: string) {
    line != "" && line[0] == '#'
  }

  predicate IsData(line: string) {
    Strip(line) != "" && !IsComment(line)
  }

  predicate WellFormed(fields: seq<string>) {
    |fields| == 3 && IsLedgerKind(fields[0]) && IsHash(fields[2])
  }

  function Parse(line: string): Option<Line> {
    var fields := Split(line, '\t');
    if WellFormed(fields) then Some(Line(fields[0], fields[1], fields[2])) else None
  }

  function DataOf(text: string): seq<string> {
    Filter(Split(text, '\n'), line => IsData(line))
  }

  function CommentsOf(text: string): seq<string> {
    Filter(Split(text, '\n'), line => IsComment(line))
  }

  // --- Reading it ---

  datatype Reading = Reading(lines: set<Line>, malformed: seq<string>, unsorted: bool)

  method ReadLedger(text: string) returns (r: Reading)
    ensures forall l :: l in r.lines <==> exists line :: line in DataOf(text) && Parse(line) == Some(l)
    ensures forall line :: line in r.malformed <==> line in DataOf(text) && Parse(line).None?
    ensures r.unsorted <==> !StrictlySorted(DataOf(text))
  {
    hide Parse, DataOf, StrictlySorted;
    var data := DataOf(text);
    var lines: set<Line>, malformed: seq<string> := {}, [];
    for k := 0 to |data|
      invariant forall l :: l in lines <==> exists line :: line in data[..k] && Parse(line) == Some(l)
      invariant forall line :: line in malformed <==> line in data[..k] && Parse(line).None?
    {
      assert data[..k + 1] == data[..k] + [data[k]];
      var parsed := Parse(data[k]);
      if parsed.None? {
        malformed := malformed + [data[k]];
        continue;
      }
      lines := lines + {parsed.value};
    }
    assert data[..|data|] == data;
    SortedIsItself(data);
    r := Reading(lines, malformed, data != Sorted(ToSet(data)));
  }

  lemma SortedIsItself(data: seq<string>)
    ensures data == Sorted(ToSet(data)) <==> StrictlySorted(data)
  {
    if StrictlySorted(data) {
      SortedIsFixed(data);
    }
  }

  /** What `check` says of the ledger: the lines it cannot read, whether they are out of order
      or repeated, the wanted lines that are missing, and the lines nothing wants. */
  datatype Verdict = Verdict(malformed: seq<string>, unsorted: bool, missing: set<Line>, stray: set<Line>)

  const FINE := Verdict([], false, {}, {})

  /** A ledger that is not there reads as an empty one. */
  method CheckLedger(file: Option<string>, want: set<Line>) returns (v: Verdict)
    requires forall l :: l in want ==> Plain(l)
    ensures v == FINE <==> Meets(if file.Some? then file.value else "", want)
    ensures forall l :: l in v.missing <==> l in want && Written(l) !in DataOf(if file.Some? then file.value else "")
    ensures var data := DataOf(if file.Some? then file.value else "");
            && (forall l :: l in v.stray <==> l !in want && exists line :: line in data && Parse(line) == Some(l))
            && (forall line :: line in v.malformed <==> line in data && Parse(line).None?)
            && (v.unsorted <==> !StrictlySorted(data))
  {
    hide DataOf, Written, Parse, StrictlySorted, Meets, Plain;
    var text := if file.Some? then file.value else "";
    var r;
    if file.None? {
      NothingRead();
      r := Reading({}, [], false);
    } else {
      r := ReadLedger(file.value);
    }
    v := Verdict(r.malformed, r.unsorted, want - r.lines, r.lines - want);
    VerdictIsExact(text, want, r);
    forall l | l in want
      ensures l in r.lines <==> Written(l) in DataOf(text)
    {
      ReadsWritten(text, l, r.lines);
    }
  }

  lemma NothingRead()
    ensures DataOf("") == [] && StrictlySorted(DataOf(""))
  {
    assert Split("", '\n') == [""];
    assert [""][..0] == [];
  }

  // --- The rule ---

  /** A line the ledger can hold. */
  predicate Plain(l: Line) {
    IsLedgerKind(l.kind) && IsHash(l.digest) && '\t' !in l.document && '\n' !in l.document
  }

  /** The rule: the data lines are the wanted ones, sorted, once each. */
  ghost predicate Meets(text: string, want: set<Line>) {
    DataOf(text) == Sorted(AllWritten(want))
  }

  lemma PlainFields(l: Line)
    requires Plain(l)
    ensures forall k :: 0 <= k < |Fields(l)| ==> '\t' !in Fields(l)[k] && '\n' !in Fields(l)[k]
  {
  }

  lemma ParseWritten(l: Line)
    requires Plain(l)
    ensures Parse(Written(l)) == Some(l)
  {
    hide Join, Split, IsLedgerKind, IsHash;
    PlainFields(l);
    SplitJoin(Fields(l), '\t');
  }

  lemma WrittenParse(line: string)
    requires Parse(line).Some?
    ensures Written(Parse(line).value) == line
  {
    hide Join, Split, IsLedgerKind, IsHash;
    JoinSplit(line, '\t');
    var fields := Split(line, '\t');
    assert Fields(Parse(line).value) == fields;
  }

  lemma ReadsWritten(text: string, l: Line, lines: set<Line>)
    requires Plain(l)
    requires forall l :: l in lines <==> exists line :: line in DataOf(text) && Parse(line) == Some(l)
    ensures l in lines <==> Written(l) in DataOf(text)
  {
    hide DataOf, Written, Parse;
    ParseWritten(l);
    if l in lines {
      var line :| line in DataOf(text) && Parse(line) == Some(l);
      WrittenParse(line);
    }
  }

  lemma VerdictIsExact(text: string, want: set<Line>, r: Reading)
    requires forall l :: l in want ==> Plain(l)
    requires forall l :: l in r.lines <==> exists line :: line in DataOf(text) && Parse(line) == Some(l)
    requires forall line :: line in r.malformed <==> line in DataOf(text) && Parse(line).None?
    requires r.unsorted <==> !StrictlySorted(DataOf(text))
    ensures r.malformed == [] && !r.unsorted && want - r.lines == {} && r.lines - want == {} <==> Meets(text, want)
  {
    hide DataOf, Written, Parse, StrictlySorted, Plain, Sorted;
    if r.malformed == [] && !r.unsorted && want - r.lines == {} && r.lines - want == {} {
      assert want == r.lines;
      DataAreWanted(text, want, r);
    }
    if Meets(text, want) {
      NothingWrong(text, want, r);
    }
  }

  lemma DataAreWanted(text: string, want: set<Line>, r: Reading)
    requires forall l :: l in want ==> Plain(l)
    requires forall l :: l in want <==> exists line :: line in DataOf(text) && Parse(line) == Some(l)
    requires forall line :: line in DataOf(text) ==> line in r.malformed || Parse(line).Some?
    requires r.malformed == [] && StrictlySorted(DataOf(text))
    ensures Meets(text, want)
  {
    hide DataOf, Written, Parse, StrictlySorted, Plain;
    var data := DataOf(text);
    forall line ensures line in data <==> line in AllWritten(want) {
      if line in data {
        var l := Parse(line).value;
        WrittenParse(line);
        assert l in want;
      }
      if line in AllWritten(want) {
        var l :| l in want && Written(l) == line;
        ReadsWritten(text, l, want);
      }
    }
    SortedOnce(data, Sorted(AllWritten(want)));
  }

  lemma NothingWrong(text: string, want: set<Line>, r: Reading)
    requires forall l :: l in want ==> Plain(l)
    requires forall l :: l in r.lines <==> exists line :: line in DataOf(text) && Parse(line) == Some(l)
    requires forall line :: line in r.malformed <==> line in DataOf(text) && Parse(line).None?
    requires r.unsorted <==> !StrictlySorted(DataOf(text))
    requires Meets(text, want)
    ensures r.malformed == [] && !r.unsorted && r.lines == want
  {
    hide DataOf, Written, Parse, StrictlySorted, Plain;
    forall line | line in DataOf(text)
      ensures Parse(line).Some? && Parse(line).value in want
    {
      var l :| l in want && Written(l) == line;
      ParseWritten(l);
    }
    Inhabited(r.malformed);
    forall l | l in want ensures l in r.lines {
      ReadsWritten(text, l, r.lines);
      assert Written(l) in AllWritten(want);
    }
  }
}
