/** Greedy in-order matching: an excerpt's pieces in a page (`removed_units.py`) and a
    block's expectations in its output (`doc_examples.py`). */
module Matching {
  import opened Text
  import opened Wrappers

  predicate IsWordChar(c: char) {
    'A' <= c <= 'Z' || 'a' <= c <= 'z' || '0' <= c <= '9' || c == '_'
  }

  /** No edge of the pattern that is a word character touches another one in the text. */
  predicate OnWordEdges(text: string, pattern: string, i: nat)
    requires i + |pattern| <= |text|
  {
    var end := i + |pattern|;
    pattern != "" ==>
      && !(IsWordChar(pattern[0]) && i > 0 && IsWordChar(text[i - 1]))
      && !(IsWordChar(pattern[|pattern| - 1]) && end < |text| && IsWordChar(text[end]))
  }

  /** The pattern stands at `i`; with `whole`, not inside a word. */
  predicate MatchesAt(text: string, pattern: string, i: nat, whole: bool) {
    OccursAt(text, pattern, i) && (whole ==> OnWordEdges(text, pattern, i))
  }

  /** The patterns stand at the offsets `at`, in order, apart, and from `start` on. */
  predicate Placed(text: string, patterns: seq<string>, start: nat, whole: bool, at: seq<nat>)
    decreases |patterns|
  {
    |at| == |patterns| &&
    (patterns != [] ==>
       && start <= at[0] && MatchesAt(text, patterns[0], at[0], whole)
       && Placed(text, patterns[1..], at[0] + |patterns[0]|, whole, at[1..]))
  }

  ghost predicate Placeable(text: string, patterns: seq<string>, start: nat, whole: bool) {
    exists at :: Placed(text, patterns, start, whole, at)
  }

  /** `i` is the first place at or after `start` where the pattern matches. */
  predicate IsFirst(text: string, pattern: string, start: nat, whole: bool, i: nat) {
    && start <= i && MatchesAt(text, pattern, i, whole)
    && forall j :: start <= j < i ==> !MatchesAt(text, pattern, j, whole)
  }

  lemma PlacedFrom(text: string, patterns: seq<string>, start: nat, later: nat, whole: bool, at: seq<nat>)
    requires start <= later && Placed(text, patterns, later, whole, at)
    ensures Placed(text, patterns, start, whole, at)
  {
  }

  /** The exchange: taking the first match of the first pattern leaves the rest placeable
      whenever any match of it does. */
  lemma TakeFirst(text: string, patterns: seq<string>, start: nat, whole: bool, i: nat)
    requires patterns != [] && IsFirst(text, patterns[0], start, whole, i)
    ensures Placeable(text, patterns, start, whole)
            <==> Placeable(text, patterns[1..], i + |patterns[0]|, whole)
  {
    if Placeable(text, patterns, start, whole) {
      var at :| Placed(text, patterns, start, whole, at);
      PlacedFrom(text, patterns[1..], i + |patterns[0]|, at[0] + |patterns[0]|, whole, at[1..]);
    }
    if Placeable(text, patterns[1..], i + |patterns[0]|, whole) {
      var rest :| Placed(text, patterns[1..], i + |patterns[0]|, whole, rest);
      assert ([i] + rest)[1..] == rest;
      assert Placed(text, patterns, start, whole, [i] + rest);
    }
  }

  lemma NoFirst(text: string, patterns: seq<string>, start: nat, whole: bool)
    requires patterns != []
    requires forall i: nat :: start <= i ==> !MatchesAt(text, patterns[0], i, whole)
    ensures !Placeable(text, patterns, start, whole)
  {
  }

  lemma NothingToPlace(text: string, start: nat, whole: bool)
    ensures Placeable(text, [], start, whole)
  {
    assert Placed(text, [], start, whole, []);
  }

  /** What `str.find` answers, in these terms. */
  lemma FindsFirst(text: string, pattern: string, start: nat)
    ensures var i := Find(text, pattern, start);
            && (if i < 0 then forall j: nat :: start <= j ==> !MatchesAt(text, pattern, j, false)
                else IsFirst(text, pattern, start, false, i))
            && forall j: nat :: start <= j && (i < 0 || j < i) ==> !MatchesAt(text, pattern, j, true)
  {
    FindIsFirst(text, pattern, start);
  }

  /** `removed_units.contains`: succeeds exactly when there are pieces and some ordered,
      non-overlapping placement of them all exists. */
  method ContainsInOrder(flat: string, parts: seq<string>) returns (found: bool)
    ensures found <==> parts != [] && Placeable(flat, parts, 0, false)
  {
    var at: nat := 0;
    assert parts[0..] == parts;
    for n := 0 to |parts|
      invariant at <= |flat|
      invariant Placeable(flat, parts, 0, false) <==> Placeable(flat, parts[n..], at, false)
    {
      FindsFirst(flat, parts[n], at);
      var i := Find(flat, parts[n], at);
      if i < 0 {
        NoFirst(flat, parts[n..], at, false);
        return false;
      }
      TakeFirst(flat, parts[n..], at, false, i);
      assert parts[n..][1..] == parts[n + 1..];
      at := i + |parts[n]|;
    }
    NothingToPlace(flat, at, false);
    assert parts[|parts|..] == [];
    found := parts != [];
  }

  /** The end of the first acceptable match of an expectation, or -1. */
  method FindExpectation(text: string, expected: string, start: nat) returns (end: int)
    requires expected != "" && start <= |text|
    ensures end < 0 ==> end == -1 && forall j: nat :: start <= j ==> !MatchesAt(text, expected, j, true)
    ensures end >= 0 ==> end - |expected| >= 0 && IsFirst(text, expected, start, true, end - |expected|)
  {
    hide OccursAt, OnWordEdges, Find;
    FindsFirst(text, expected, start);
    var i := Find(text, expected, start);
    while i != -1
      invariant i >= 0 ==> start <= i && i + |expected| <= |text| && MatchesAt(text, expected, i, false)
      invariant i < 0 ==> i == -1
      invariant forall j: nat :: start <= j && (i < 0 || j < i) ==> !MatchesAt(text, expected, j, true)
      decreases if i < 0 then 0 else |text| + 1 - i
    {
      var ok := IsAcceptable(text, expected, i);
      if ok {
        return i + |expected|;
      }
      FindsFirst(text, expected, i + 1);
      i := Find(text, expected, i + 1);
    }
    end := -1;
  }

  /** The two edge tests at one occurrence. */
  method IsAcceptable(text: string, expected: string, i: nat) returns (ok: bool)
    requires expected != "" && i + |expected| <= |text|
    ensures ok <==> OnWordEdges(text, expected, i)
  {
    var before := if i > 0 then [text[i - 1]] else "";
    var afterAt := i + |expected|;
    var after := if afterAt < |text| then [text[afterAt]] else "";
    var headOk := !(IsWordChar(expected[0]) && before != "" && IsWordChar(before[0]));
    var tailOk := !(IsWordChar(expected[|expected| - 1]) && after != "" && IsWordChar(after[0]));
    ok := headOk && tailOk;
  }

  /** A block's expectations looked for one after the other: the number of the first one
      not found, from 0. None is missing exactly when all can be placed; otherwise those
      above the missing one can, and no placement reaches further. */
  method FindMissing(stdout: string, expects: seq<string>) returns (missing: Option<nat>)
    requires forall e :: e in expects ==> e != ""
    ensures missing.None? <==> Placeable(stdout, expects, 0, true)
    ensures missing.Some? ==>
              && missing.value < |expects|
              && Placeable(stdout, expects[..missing.value], 0, true)
              && !Placeable(stdout, expects[..missing.value + 1], 0, true)
  {
    var position: nat := 0;
    NothingToPlace(stdout, 0, true);
    ghost var at: seq<nat> := [];
    for n := 0 to |expects|
      invariant position <= |stdout|
      invariant forall k :: n <= k <= |expects| ==>
                  (Placeable(stdout, expects[..k], 0, true) <==> Placeable(stdout, expects[n..k], position, true))
    {
      ghost var before := position;
      assert expects[n] in expects;
      var found := FindExpectation(stdout, expects[n], position);
      if found == -1 {
        assert expects[n..n] == [] && expects[n..n + 1][0] == expects[n];
        NothingToPlace(stdout, position, true);
        assert expects[n..n + 1] == [expects[n]];
        NoFirst(stdout, [expects[n]], position, true);
        NoFirst(stdout, expects[n..], position, true);
        assert expects[n..|expects|] == expects[n..] && expects[..|expects|] == expects;
        return Some(n);
      }
      position := found;
      forall k | n + 1 <= k <= |expects|
        ensures Placeable(stdout, expects[n..k], before, true) <==> Placeable(stdout, expects[n + 1..k], position, true)
      {
        TakeFirst(stdout, expects[n..k], before, true, found - |expects[n]|);
        assert expects[n..k][1..] == expects[n + 1..k];
      }
    }
    assert expects[|expects|..|expects|] == [] && expects[..|expects|] == expects;
    NothingToPlace(stdout, position, true);
    missing := None;
  }
}
