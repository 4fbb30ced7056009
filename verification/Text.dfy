/** Plain string operations: white space, searching, splitting and joining. */
module Text {

  /** The characters `str.strip` and `str.split` treat as white space. */
  predicate IsSpace(c: char) {
    || '\t' <= c <= '\r' || '\U{1C}' <= c <= ' '
    || c == '\U{85}' || c == '\U{A0}' || c == '\U{1680}'
    || '\U{2000}' <= c <= '\U{200A}' || c == '\U{2028}' || c == '\U{2029}'
    || c == '\U{202F}' || c == '\U{205F}' || c == '\U{3000}'
  }

  function LStrip(s: string): string {
    if s != "" && IsSpace(s[0]) then LStrip(s[1..]) else s
  }

  function RStrip(s: string): string {
    if s != "" && IsSpace(s[|s| - 1]) then RStrip(s[..|s| - 1]) else s
  }

  function Strip(s: string): string {
    RStrip(LStrip(s))
  }

  /** What the scripts' patterns write as `[ \t]`. */
  predicate IsBlank(c: char) {
    c == ' ' || c == '\t'
  }

  function RStripBlanks(s: string): string {
    if s != "" && IsBlank(s[|s| - 1]) then RStripBlanks(s[..|s| - 1]) else s
  }

  /** `pattern` stands in `text` at offset `i`. */
  predicate OccursAt(text: string, pattern: string, i: int) {
    0 <= i <= |text| && pattern <= text[i..]
  }

  predicate Contains(text: string, pattern: string) {
    exists i :: 0 <= i <= |text| && OccursAt(text, pattern, i)
  }

  /** `text.find(pattern, start)`: the first occurrence at or after `start`, or -1. */
  function Find(text: string, pattern: string, start: nat): (at: int)
    ensures at == -1 || start <= at <= at + |pattern| <= |text|
    decreases |text| - start
  {
    if start > |text| then -1
    else if pattern <= text[start..] then start
    else Find(text, pattern, start + 1)
  }

  lemma {:induction false} FindIsFirst(text: string, pattern: string, start: nat)
    ensures var at := Find(text, pattern, start);
            && (at != -1 ==> OccursAt(text, pattern, at))
            && forall i :: start <= i && (at == -1 || i < at) ==> !OccursAt(text, pattern, i)
    decreases |text| - start
  {
    if start <= |text| && !(pattern <= text[start..]) {
      FindIsFirst(text, pattern, start + 1);
    }
  }

  /** `text.split(separator)` for a one-character separator. */
  function Split(text: string, separator: char): (parts: seq<string>)
    ensures parts != []
    ensures forall k :: 0 <= k < |parts| ==> separator !in parts[k]
  {
    if text == "" then [""]
    else
      var rest := Split(text[1..], separator);
      if text[0] == separator then [""] + rest
      else [[text[0]] + rest[0]] + rest[1..]
  }

  /** `separator.join(parts)` for a one-character separator. */
  function Join(parts: seq<string>, separator: char): string {
    if parts == [] then ""
    else if |parts| == 1 then parts[0]
    else parts[0] + [separator] + Join(parts[1..], separator)
  }

  /** Joining inverts splitting. */
  lemma {:induction false} JoinSplit(text: string, separator: char)
    ensures Join(Split(text, separator), separator) == text
  {
    if text != "" {
      JoinSplit(text[1..], separator);
      var rest := Split(text[1..], separator);
      var parts := Split(text, separator);
      if text[0] == separator {
        assert parts[1..] == rest;
      } else if |rest| > 1 {
        assert parts[1..] == rest[1..];
      }
    }
  }

  /** Splitting inverts joining when no part holds the separator. */
  lemma {:induction false} SplitJoin(parts: seq<string>, separator: char)
    requires parts != []
    requires forall k :: 0 <= k < |parts| ==> separator !in parts[k]
    ensures Split(Join(parts, separator), separator) == parts
  {
    if |parts| == 1 {
      SplitWhole(parts[0], separator);
    } else {
      SplitJoin(parts[1..], separator);
      SplitHead(parts[0], Join(parts[1..], separator), separator);
    }
  }

  lemma {:induction false} SplitWhole(part: string, separator: char)
    requires separator !in part
    ensures Split(part, separator) == [part]
  {
    if part != "" {
      SplitWhole(part[1..], separator);
      assert [part[0]] + part[1..] == part;
    }
  }

  /** The text before the first separator is the first part. */
  lemma {:induction false} SplitHead(part: string, rest: string, separator: char)
    requires separator !in part
    ensures Split(part + [separator] + rest, separator) == [part] + Split(rest, separator)
  {
    var whole := part + [separator] + rest;
    if part == "" {
      assert whole[1..] == rest;
    } else {
      SplitHead(part[1..], rest, separator);
      assert whole[1..] == part[1..] + [separator] + rest;
      assert [part[0]] + part[1..] == part;
    }
  }
}
