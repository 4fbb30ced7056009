/** What opens and what closes a Markdown fence, for both scanners of the repository. */
module FenceSyntax {
  import opened Text
  import opened Wrappers

  datatype Opener = Opener(indent: nat, marker: string, info: string)

  function Indent(line: string): (n: nat)
    ensures n <= |line|
  {
    if line != "" && IsBlank(line[0]) then 1 + Indent(line[1..]) else 0
  }

  function RunLength(s: string, c: char): (n: nat)
    ensures n <= |s|
    ensures forall k :: 0 <= k < n ==> s[k] == c
    ensures n < |s| ==> s[n] != c
  {
    if s != "" && s[0] == c then 1 + RunLength(s[1..], c) else 0
  }

  /** Three or more backticks or tildes at any indentation; the rest is the info
      string, which for backticks may hold none. */
  function Opens(line: string): (o: Option<Opener>)
    ensures o.Some? ==> |o.value.marker| >= 3 && o.value.indent <= |line|
  {
    var indent := Indent(line);
    var rest := line[indent..];
    if rest == "" || (rest[0] != '`' && rest[0] != '~') then None
    else
      var n := RunLength(rest, rest[0]);
      if n < 3 || (rest[0] == '`' && '`' in rest[n..]) then None
      else Some(Opener(indent, rest[..n], rest[n..]))
  }

  /** The marker's character alone, at least as many times as in the marker. */
  predicate Closes(line: string, marker: string)
    requires marker != ""
  {
    var closer := Strip(line);
    closer != "" && (forall c :: c in closer ==> c == marker[0]) && |closer| >= |marker|
  }
}
