/** The sentinel-delimited output of a page's script and its reader (`doc_examples.py`). */
module Stream {
  import opened Wrappers
  import opened Numbers

  /** What a finished block printed, and what its end sentinel carries. */
  datatype Ran = Ran(output: string, rc: nat, flags: string, pipefail: string)

  /** What the reader knows of a block. */
  datatype Outcome = Outcome(reached: bool, rc: Option<nat>, flags: string, pipefail: string, stdout: string)

  const UNREAD := Outcome(false, None, "", "", "")

  const OPEN := "@@DOCEX:"
  const CLOSE := "@@"

  function BeginHead(nonce: string): string {
    OPEN + nonce + ":BEGIN:"
  }

  function EndHead(nonce: string): string {
    OPEN + nonce + ":END:"
  }

  function Begin(nonce: string, i: nat): string {
    BeginHead(nonce) + Digits(i) + CLOSE
  }

  function EndFields(i: nat, b: Ran): string {
    Digits(i) + (":" + (Digits(b.rc) + (":" + (b.flags + (":" + b.pipefail)))))
  }

  function End(nonce: string, i: nat, b: Ran): string {
    EndHead(nonce) + EndFields(i, b) + CLOSE
  }

  /** What the script prints around block `i`: sentinels on lines of their own. */
  function BlockStream(nonce: string, i: nat, b: Ran): string {
    "\n" + Begin(nonce, i) + "\n" + b.output + "\n" + End(nonce, i, b) + "\n"
  }

  /** The whole stream from block `i` on. */
  function StreamFrom(nonce: string, blocks: seq<Ran>, i: nat): string
    decreases |blocks| - i
  {
    if i >= |blocks| then "" else BlockStream(nonce, i, blocks[i]) + StreamFrom(nonce, blocks, i + 1)
  }

  // --- Finding sentinels in a line ---

  function RunEnd(s: string, i: nat, member: char -> bool): (j: nat)
    requires i <= |s|
    ensures i <= j <= |s|
    ensures forall k :: i <= k < j ==> member(s[k])
    ensures j < |s| ==> !member(s[j])
    decreases |s| - i
  {
    if i < |s| && member(s[i]) then RunEnd(s, i + 1, member) else i
  }

  function StartsAt(s: string, i: nat, part: string): bool {
    i <= |s| && part <= s[i..]
  }

  function Digit(): char -> bool {
    c => IsDigit(c)
  }

  function Flag(): char -> bool {
    c => c != ':' && c != '@'
  }

  function Lower(): char -> bool {
    c => 'a' <= c <= 'z'
  }

  /** A run of members that `stop` follows: the run, and the offset after the stop. */
  function TakeField(line: string, from: nat, member: char -> bool, stop: string): (r: Option<(string, nat)>)
    ensures r.Some? ==> from + |stop| <= r.value.1 <= |line|
    ensures r.Some? ==> forall k :: 0 <= k < |r.value.0| ==> member(r.value.0[k])
  {
    if from > |line| then None
    else
      var to := RunEnd(line, from, member);
      if StartsAt(line, to, stop) then Some((line[from..to], to + |stop|)) else None
  }

  /** A numeral field. */
  function TakeNumber(line: string, from: nat, stop: string): (r: Option<(nat, nat)>)
    ensures r.Some? ==> from + |stop| <= r.value.1 <= |line|
  {
    match TakeField(line, from, Digit(), stop)
    case None => None
    case Some((run, next)) => if run == "" then None else Some((Value(run), next))
  }

  /** A begin sentinel at offset `p`: its block number. */
  function BeginAt(nonce: string, line: string, p: nat): Option<nat> {
    var head := BeginHead(nonce);
    if !StartsAt(line, p, head) then None
    else match TakeNumber(line, p + |head|, CLOSE)
      case None => None
      case Some((block, _)) => Some(block)
  }

  datatype Mark = Mark(block: nat, rc: nat, flags: string, pipefail: string)

  /** An end sentinel at offset `p`: what it carries. */
  function EndAt(nonce: string, line: string, p: nat): Option<Mark> {
    var head := EndHead(nonce);
    if !StartsAt(line, p, head) then None
    else match TakeNumber(line, p + |head|, ":")
      case None => None
      case Some((block, r0)) =>
        match TakeNumber(line, r0, ":")
        case None => None
        case Some((rc, f0)) =>
          match TakeField(line, f0, Flag(), ":")
          case None => None
          case Some((flags, p0)) =>
            match TakeField(line, p0, Lower(), CLOSE)
            case None => None
            case Some((pipefail, _)) => Some(Mark(block, rc, flags, pipefail))
  }

  function SearchBegin(nonce: string, line: string, from: nat): Option<nat>
    decreases |line| - from
  {
    if from >= |line| then None
    else if BeginAt(nonce, line, from).Some? then BeginAt(nonce, line, from)
    else SearchBegin(nonce, line, from + 1)
  }

  function SearchEnd(nonce: string, line: string, from: nat): Option<Mark>
    decreases |line| - from
  {
    if from >= |line| then None
    else if EndAt(nonce, line, from).Some? then EndAt(nonce, line, from)
    else SearchEnd(nonce, line, from + 1)
  }

  // --- The reader ---

  /** The lines of a stream, each with its line break; the last may lack one. */
  function Lines(text: string): seq<string>
    decreases |text|
  {
    if text == "" then []
    else
      var n := LineEnd(text);
      [text[..n]] + Lines(text[n..])
  }

  function LineEnd(text: string): (n: nat)
    requires text != ""
    ensures 1 <= n <= |text|
    ensures forall k :: 0 <= k < n - 1 ==> text[k] != '\n'
    ensures n < |text| ==> text[n - 1] == '\n'
  {
    if text[0] == '\n' || |text| == 1 then 1 else 1 + LineEnd(text[1..])
  }

  /** The reader's state: the block being read, what is known of each, and whether a block
      number out of range ended the reading. */
  datatype State = State(current: Option<nat>, outcomes: seq<Outcome>, dead: bool)

  function ReadLine(nonce: string, st: State, line: string): State {
    if st.dead then st
    else match SearchBegin(nonce, line, 0)
      case Some(i) => st.(current := Some(i))
      case None =>
        match SearchEnd(nonce, line, 0)
        case Some(m) =>
          if m.block >= |st.outcomes| then st.(dead := true)
          else
            var o := st.outcomes[m.block].(reached := true, rc := Some(m.rc), flags := m.flags, pipefail := m.pipefail);
            State(None, st.outcomes[m.block := o], false)
        case None =>
          match st.current
          case None => st
          case Some(i) =>
            if i >= |st.outcomes| then st.(dead := true)
            else
              var o := st.outcomes[i].(stdout := st.outcomes[i].stdout + line);
              st.(outcomes := st.outcomes[i := o])
  }

  function ReadLines(nonce: string, st: State, lines: seq<string>): State
    decreases |lines|
  {
    if lines == [] then st else ReadLines(nonce, ReadLine(nonce, st, lines[0]), lines[1..])
  }

  function Unread(n: nat): State {
    State(None, seq(n, _ => UNREAD), false)
  }

  /** The standard output's reader. */
  method ReadStream(nonce: string, n: nat, stream: string) returns (outcomes: seq<Outcome>)
    ensures outcomes == ReadLines(nonce, Unread(n), Lines(stream)).outcomes
  {
    hide SearchBegin, SearchEnd;
    outcomes := seq(n, _ => UNREAD);
    var current: Option<nat> := None;
    var lines := Lines(stream);
    ghost var last := ReadLines(nonce, Unread(n), lines);
    for k := 0 to |lines|
      invariant ReadLines(nonce, State(current, outcomes, false), lines[k..]) == last
    {
      var line := lines[k];
      assert lines[k..][1..] == lines[k + 1..];
      var started := SearchBegin(nonce, line, 0);
      if started.Some? {
        current := started;
        continue;
      }
      var finished := SearchEnd(nonce, line, 0);
      if finished.Some? {
        var m := finished.value;
        if m.block >= |outcomes| {
          DeadStaysDead(nonce, State(current, outcomes, true), lines[k + 1..]);
          return;
        }
        outcomes := outcomes[m.block := outcomes[m.block].(reached := true, rc := Some(m.rc), flags := m.flags,
                                                           pipefail := m.pipefail)];
        current := None;
        continue;
      }
      if current.Some? {
        if current.value >= |outcomes| {
          DeadStaysDead(nonce, State(current, outcomes, true), lines[k + 1..]);
          return;
        }
        var open := outcomes[current.value];
        outcomes := outcomes[current.value := open.(stdout := open.stdout + line)];
      }
    }
  }

  lemma {:induction false} DeadStaysDead(nonce: string, st: State, lines: seq<string>)
    requires st.dead
    ensures ReadLines(nonce, st, lines) == st
  {
    hide SearchBegin, SearchEnd;
    if lines != [] {
      DeadStaysDead(nonce, st, lines[1..]);
    }
  }
}
