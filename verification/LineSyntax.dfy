/** How `doc_claims.py` classifies one visible line of a page. */
module LineSyntax {
  import opened Text
  import opened Wrappers
  import opened Numbers

  /** The patterns and text functions taken as given: whether a line opens an admonition,
      collapsible or tab and with which title, whether it is a reference definition or a
      table separator, and how a heading's or a table row's text is normalised. */
  datatype Syntax = Syntax(
    opener: string -> Option<Option<string>>,
    reference: string -> bool,
    separator: string -> bool,
    heading: string -> string,
    row: string -> string)

  function SkipBlanks(s: string, i: nat): (j: nat)
    requires i <= |s|
    ensures i <= j <= |s|
    decreases |s| - i
  {
    if i < |s| && IsBlank(s[i]) then SkipBlanks(s, i + 1) else i
  }

  /** The end of the `>` marks from `i` on, and how many there are. */
  function QuoteEnd(line: string, i: nat): (r: (nat, nat))
    requires i <= |line|
    ensures i <= r.0 <= |line|
    decreases |line| - i
  {
    if i < |line| && line[i] == '>' then
      var (end, depth) := QuoteEnd(line, SkipBlanks(line, i + 1));
      (end, depth + 1)
    else (i, 0)
  }

  /** A line's blockquote depth. */
  function Depth(raw: string): nat {
    QuoteEnd(Strip(raw), 0).1
  }

  /** A line's text inside its blockquotes. */
  function Body(raw: string): string {
    var line := Strip(raw);
    line[QuoteEnd(line, 0).0..]
  }

  /** An unescaped pipe. */
  predicate HasPipe(body: string) {
    exists k :: 0 <= k < |body| && body[k] == '|' && (k == 0 || body[k - 1] != '\\')
  }

  predicate AllAre(s: string, c: char) {
    forall x :: x in s ==> x == c
  }

  predicate IsUnderline(body: string) {
    var line := RStripBlanks(body);
    line != "" && (AllAre(line, '=') || AllAre(line, '-'))
  }

  function WithoutBlanks(s: string): string {
    if s == "" then "" else (if IsBlank(s[0]) then "" else [s[0]]) + WithoutBlanks(s[1..])
  }

  predicate IsBreak(body: string) {
    var compact := WithoutBlanks(body);
    |compact| >= 3 && compact[0] in "*-_" && AllAre(compact, compact[0])
  }

  function DigitsEnd(s: string, i: nat): (j: nat)
    requires i <= |s|
    ensures i <= j <= |s|
    decreases |s| - i
  {
    if i < |s| && IsDigit(s[i]) then DigitsEnd(s, i + 1) else i
  }

  /** Where a list item's text starts, if the line starts one. */
  function ListMarker(body: string): (end: Option<nat>)
    ensures end.Some? ==> end.value <= |body|
  {
    var digits := DigitsEnd(body, 0);
    var end :=
      if body != "" && body[0] in "-*+" then 1
      else if 1 <= digits <= 9 && digits < |body| && body[digits] in ".)" then digits + 1
      else 0;
    if end > 0 && (end == |body| || IsBlank(body[end])) then Some(SkipBlanks(body, end)) else None
  }

  predicate StartsHtml(body: string) {
    |body| >= 2 && body[0] == '<' &&
    ('A' <= body[1] <= 'Z' || 'a' <= body[1] <= 'z' || body[1] in "/!?")
  }

  predicate IsHash(raw: string) {
    "#" <= Body(raw) && ("#" <= raw || Depth(raw) > 0)
  }

  predicate IsSeparator(syntax: Syntax, raw: string) {
    '|' in Body(raw) && syntax.separator(Body(raw))
  }
}
