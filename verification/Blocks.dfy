/** The block builder of `doc_claims.py`: visible lines joined into blocks. */
module Blocks {
  import opened LineSyntax

  datatype Kind = Para | List | Html | Heading | Row

  /** A block's value: its parts are numbered lines, counted from 1. */
  datatype BlockValue = BlockValue(kind: Kind, line: nat, depth: nat, parts: seq<(nat, string)>)

  /** The builder's value: `open` says that the last block may still grow. */
  datatype State = State(blocks: seq<BlockValue>, open: bool, inTable: bool)

  const START := State([], false, false)

  function One(kind: Kind, number: nat, depth: nat, text: string): BlockValue {
    BlockValue(kind, number, depth, [(number, text)])
  }

  predicate Joinable(kind: Kind) {
    kind.Para? || kind.List? || kind.Html?
  }

  /** Only the newest block can be open, only while it may still grow, and never in a table. */
  predicate ValidState(st: State) {
    st.open ==>
      && !st.inTable && st.blocks != []
      && var last := st.blocks[|st.blocks| - 1];
         Joinable(last.kind) && last.parts != []
  }

  function Last(st: State): BlockValue
    requires st.open && ValidState(st)
  {
    st.blocks[|st.blocks| - 1]
  }

  // --- What one line does to the blocks ---

  function Close(st: State): State {
    st.(open := false, inTable := false)
  }

  /** A block of one line that never grows; it ends the open one. */
  function Single(st: State, kind: Kind, number: nat, depth: nat, text: string): State {
    State(st.blocks + [One(kind, number, depth, text)], false, kind.Row?)
  }

  function Opened(st: State, kind: Kind, number: nat, depth: nat, text: string): State {
    State(st.blocks + [One(kind, number, depth, text)], true, false)
  }

  function Extended(st: State, number: nat, text: string): State
    requires st.open && ValidState(st)
  {
    var last := Last(st);
    st.(blocks := st.blocks[..|st.blocks| - 1] + [last.(parts := last.parts + [(number, text)])])
  }

  /** The blocks without the open one's last line, and without the block when it had one. */
  function Shortened(st: State): seq<BlockValue>
    requires st.open && ValidState(st)
  {
    var last := Last(st);
    var n := |last.parts| - 1;
    var init := st.blocks[..|st.blocks| - 1];
    if n == 0 then init else init + [last.(parts := last.parts[..n])]
  }

  /** The open paragraph's last line becomes a heading of its own. */
  function Underlined(syntax: Syntax, st: State): State
    requires st.open && ValidState(st)
  {
    var last := Last(st);
    var (line, text) := last.parts[|last.parts| - 1];
    State(Shortened(st) + [One(Heading, line, last.depth, syntax.heading(text))], false, false)
  }

  predicate StartsTable(syntax: Syntax, lines: seq<string>, i: nat)
    requires i < |lines|
  {
    HasPipe(Body(lines[i])) && i + 1 < |lines| && IsSeparator(syntax, lines[i + 1])
  }

  /** What a line does that is not blank, a table's next row, a heading or an opener. */
  function TextStep(syntax: Syntax, lines: seq<string>, i: nat, st: State): (r: (State, nat))
    requires i < |lines| && ValidState(st)
    ensures ValidState(r.0) && i < r.1 <= |lines|
  {
    var raw, number := lines[i], i + 1;
    var depth, body := Depth(raw), Body(raw);
    if syntax.reference(body) then (Close(st), i + 1)
    else if IsUnderline(body) && st.open && Last(st).kind.Para? && Last(st).depth == depth then
      (Underlined(syntax, st), i + 1)
    else if IsBreak(body) then (Close(st), i + 1)
    else if StartsTable(syntax, lines, i) then
      (Single(st, Row, number, depth, syntax.row(body)), i + 2)
    else match ListMarker(body)
      case Some(end) => (Opened(st, List, number, depth, body[end..]), i + 1)
      case None =>
        if StartsHtml(body) then (Opened(st, Html, number, depth, body), i + 1)
        else if st.open && Last(st).depth == depth then (Extended(st, number, body), i + 1)
        else (Opened(st, Para, number, depth, body), i + 1)
  }

  /** The state after line `i` and the next line to read. */
  function Step(syntax: Syntax, lines: seq<string>, i: nat, st: State): (r: (State, nat))
    requires i < |lines| && ValidState(st)
    ensures ValidState(r.0) && i < r.1 <= |lines|
  {
    var raw, number := lines[i], i + 1;
    var depth, body := Depth(raw), Body(raw);
    if body == "" then (Close(st), i + 1)
    else if st.inTable && HasPipe(body) then (Single(st, Row, number, depth, syntax.row(body)), i + 1)
    else if IsHash(raw) then (Single(st, Heading, number, depth, syntax.heading(body)), i + 1)
    else match syntax.opener(body)
      case Some(Some(title)) => (Single(st, Heading, number, depth, title), i + 1)
      case Some(None) => (Close(st), i + 1)
      case None => TextStep(syntax, lines, i, st)
  }

  /** A line of text ends a table. */
  lemma OutOfTable(syntax: Syntax, lines: seq<string>, i: nat, st: State)
    requires i < |lines| && ValidState(st) && st.inTable
    ensures TextStep(syntax, lines, i, st) == TextStep(syntax, lines, i, st.(inTable := false))
  {
    hide Depth, Body, IsUnderline, IsBreak, StartsTable, ListMarker, StartsHtml;
  }

  function Run(syntax: Syntax, lines: seq<string>, i: nat, st: State): (r: State)
    requires i <= |lines| && ValidState(st)
    ensures ValidState(r)
    decreases |lines| - i
  {
    if i == |lines| then st
    else
      var (next, j) := Step(syntax, lines, i, st);
      Run(syntax, lines, j, next)
  }

  /** The blocks of a page. */
  function BlocksOf(syntax: Syntax, lines: seq<string>): seq<BlockValue> {
    Run(syntax, lines, 0, START).blocks
  }

  // --- The builder itself, on mutable blocks ---

  class Block {
    const kind: Kind
    const line: nat
    const depth: nat
    var parts: seq<(nat, string)>

    constructor (kind: Kind, line: nat, depth: nat, text: string)
      ensures Value() == One(kind, line, depth, text)
    {
      this.kind, this.line, this.depth := kind, line, depth;
      this.parts := [(line, text)];
    }

    function Value(): BlockValue
      reads this
    {
      BlockValue(kind, line, depth, parts)
    }
  }

  ghost function Values(blocks: seq<Block>): (r: seq<BlockValue>)
    reads blocks
    ensures |r| == |blocks|
  {
    seq(|blocks|, k requires 0 <= k < |blocks| reads blocks => blocks[k].Value())
  }

  class Builder {
    const syntax: Syntax
    var blocks: seq<Block>
    var current: Block?
    var inTable: bool

    constructor (syntax: Syntax)
      ensures Valid() && fresh(this) && blocks == [] && Abstract() == START
      ensures this.syntax == syntax
    {
      this.syntax := syntax;
      blocks, current, inTable := [], null, false;
    }

    /** No block is in the list twice, and the open one is the last of it. */
    ghost predicate Valid()
      reads this, blocks
    {
      && (forall j, k :: 0 <= j < k < |blocks| ==> blocks[j] != blocks[k])
      && (current != null ==> blocks != [] && blocks[|blocks| - 1] == current)
      && ValidState(Abstract())
    }

    ghost function Abstract(): State
      reads this, blocks
    {
      State(Values(blocks), current != null, inTable)
    }

    method End()
      requires Valid()
      modifies this
      ensures Valid() && Abstract() == Close(old(Abstract())) && blocks == old(blocks)
    {
      current, inTable := null, false;
    }

    method AddSingle(kind: Kind, number: nat, depth: nat, text: string)
      requires Valid() && !Joinable(kind)
      modifies this
      ensures Valid() && Abstract() == Single(old(Abstract()), kind, number, depth, text)
      ensures forall k :: 0 <= k < |blocks| ==> blocks[k] in old(blocks) || fresh(blocks[k])
    {
      var block := new Block(kind, number, depth, text);
      blocks := blocks + [block];
      current, inTable := null, kind == Row;
      assert Values(blocks) == old(Values(blocks)) + [One(kind, number, depth, text)];
    }

    method Open(kind: Kind, number: nat, depth: nat, text: string)
      requires Valid() && Joinable(kind)
      modifies this
      ensures Valid() && Abstract() == Opened(old(Abstract()), kind, number, depth, text)
      ensures forall k :: 0 <= k < |blocks| ==> blocks[k] in old(blocks) || fresh(blocks[k])
    {
      current := new Block(kind, number, depth, text);
      blocks := blocks + [current];
      inTable := false;
      assert Values(blocks) == old(Values(blocks)) + [One(kind, number, depth, text)];
    }

    method Extend(number: nat, text: string)
      requires Valid() && current != null
      modifies current
      ensures Valid() && Abstract() == Extended(old(Abstract()), number, text)
      ensures blocks == old(blocks)
    {
      current.parts := current.parts + [(number, text)];
      assert Values(blocks) == Extended(old(Abstract()), number, text).blocks;
    }

    /** The open paragraph gives up its last line, and leaves the list when that was its
        only one. */
    method TakeLast() returns (line: nat, text: string)
      requires Valid() && current != null
      modifies this, current
      ensures Valid() && Abstract() == State(Shortened(old(Abstract())), false, false)
      ensures var parts := Last(old(Abstract())).parts; (line, text) == parts[|parts| - 1]
      ensures forall k :: 0 <= k < |blocks| ==> blocks[k] in old(blocks)
    {
      var n := |current.parts| - 1;
      line, text := current.parts[n].0, current.parts[n].1;
      current.parts := current.parts[..n];
      if current.parts == [] {
        assert blocks[|blocks| - 1] == current;
        blocks := blocks[..|blocks| - 1];
      }
      current, inTable := null, false;
      assert Values(blocks) == Shortened(old(Abstract()));
    }

    /** The setext heading. */
    method Underline()
      requires Valid() && current != null
      modifies this, current
      ensures Valid() && Abstract() == Underlined(syntax, old(Abstract()))
      ensures forall k :: 0 <= k < |blocks| ==> blocks[k] in old(blocks) || fresh(blocks[k])
    {
      var depth := current.depth;
      var line, text := TakeLast();
      AddSingle(Heading, line, depth, syntax.heading(text));
    }

    /** One turn of the loop: line `i`, and its separator when it starts a table. */
    method ReadLine(lines: seq<string>, i: nat) returns (next: nat)
      requires Valid() && i < |lines|
      modifies this, blocks
      ensures Valid() && (Abstract(), next) == Step(syntax, lines, i, old(Abstract()))
      ensures forall k :: 0 <= k < |blocks| ==> blocks[k] in old(blocks) || fresh(blocks[k])
    {
      hide Depth, Body, HasPipe, IsHash, TextStep;
      var raw, number := lines[i], i + 1;
      var depth, body := Depth(raw), Body(raw);
      next := i + 1;
      if body == "" {
        End();
        return;
      }
      if inTable {
        if HasPipe(body) {
          AddSingle(Row, number, depth, syntax.row(body));
          return;
        }
        OutOfTable(syntax, lines, i, Abstract());
        inTable := false;
      }
      if IsHash(raw) {
        AddSingle(Heading, number, depth, syntax.heading(body));
        return;
      }
      var opener := syntax.opener(body);
      if opener.Some? {
        if opener.value.Some? {
          AddSingle(Heading, number, depth, opener.value.value);
        } else {
          End();
        }
        return;
      }
      next := ReadText(lines, i);
    }

    method ReadText(lines: seq<string>, i: nat) returns (next: nat)
      requires Valid() && i < |lines|
      modifies this, blocks
      ensures Valid() && (Abstract(), next) == TextStep(syntax, lines, i, old(Abstract()))
      ensures forall k :: 0 <= k < |blocks| ==> blocks[k] in old(blocks) || fresh(blocks[k])
    {
      hide Depth, Body, HasPipe, IsUnderline, IsBreak, StartsTable, ListMarker, StartsHtml;
      hide Extended, Underlined, Shortened;
      var number := i + 1;
      var depth, body := Depth(lines[i]), Body(lines[i]);
      next := i + 1;
      if syntax.reference(body) {
        End();
      } else if IsUnderline(body) && current != null && current.kind == Para && current.depth == depth {
        Underline();
      } else if IsBreak(body) {
        End();
      } else if StartsTable(syntax, lines, i) {
        AddSingle(Row, number, depth, syntax.row(body));
        next := i + 2;
      } else if ListMarker(body).Some? {
        Open(List, number, depth, body[ListMarker(body).value..]);
      } else if StartsHtml(body) {
        Open(Html, number, depth, body);
      } else if current != null && current.depth == depth {
        Extend(number, body);
      } else {
        Open(Para, number, depth, body);
      }
    }
  }

  /** The blocks, with their values as the page gives them. */
  method BuildBlocks(syntax: Syntax, lines: seq<string>) returns (blocks: seq<Block>)
    ensures Values(blocks) == BlocksOf(syntax, lines)
    ensures forall k :: 0 <= k < |blocks| ==> fresh(blocks[k])
  {
    hide Step;
    var builder := new Builder(syntax);
    var i := 0;
    while i < |lines|
      invariant 0 <= i <= |lines|
      invariant fresh(builder) && builder.syntax == syntax && builder.Valid()
      invariant forall k :: 0 <= k < |builder.blocks| ==> fresh(builder.blocks[k])
      invariant BlocksOf(syntax, lines) == Run(syntax, lines, i, builder.Abstract()).blocks
    {
      i := builder.ReadLine(lines, i);
    }
    blocks := builder.blocks;
  }
}
