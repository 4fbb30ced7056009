/** Sequences as the scripts use them: as sets, without repetitions, joined. */
module Sequences {

  /** `set(s)`. */
  function ToSet<T(==)>(s: seq<T>): set<T> {
    set x | x in s
  }

  /** The element alone where the condition holds. */
  function Only<T>(x: T, when: bool): seq<T> {
    if when then [x] else []
  }

  function Filter<T(!new)>(s: seq<T>, keep: T -> bool): (r: seq<T>)
    ensures forall x :: x in r <==> x in s && keep(x)
  {
    if s == [] then []
    else
      var last := s[|s| - 1];
      assert s == s[..|s| - 1] + [last];
      Filter(s[..|s| - 1], keep) + if keep(last) then [last] else []
  }

  predicate NoRepeats<T(==)>(s: seq<T>) {
    forall j, k :: 0 <= j < k < |s| ==> s[j] != s[k]
  }

  lemma Assoc<T>(a: seq<T>, b: seq<T>, c: seq<T>)
    ensures (a + b) + c == a + (b + c)
  {
  }
}
