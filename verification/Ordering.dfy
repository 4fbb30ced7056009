/** Code-point order on strings, and `sorted` of a set of them. */
module Ordering {

  /** `a <= b` as strings compare: by the first difference, a prefix first. */
  predicate AtMost(a: string, b: string)
    decreases |a|
  {
    if a == "" then true
    else if b == "" then false
    else a[0] < b[0] || (a[0] == b[0] && AtMost(a[1..], b[1..]))
  }

  lemma {:induction false} Total(a: string, b: string)
    ensures AtMost(a, b) || AtMost(b, a)
    decreases |a|
  {
    if a != "" && b != "" && a[0] == b[0] {
      Total(a[1..], b[1..]);
    }
  }

  lemma {:induction false} Antisymmetric(a: string, b: string)
    requires AtMost(a, b) && AtMost(b, a)
    ensures a == b
    decreases |a|
  {
    if a != "" && b != "" {
      Antisymmetric(a[1..], b[1..]);
      assert a == [a[0]] + a[1..] && b == [b[0]] + b[1..];
    }
  }

  lemma {:induction false} Transitive(a: string, b: string, c: string)
    requires AtMost(a, b) && AtMost(b, c)
    ensures AtMost(a, c)
    decreases |a|
  {
    if a != "" && b != "" && c != "" && a[0] == b[0] && b[0] == c[0] {
      Transitive(a[1..], b[1..], c[1..]);
    }
  }

  /** In order, and no string twice. */
  predicate StrictlySorted(s: seq<string>) {
    forall j, k :: 0 <= j < k < |s| ==> AtMost(s[j], s[k]) && s[j] != s[k]
  }

  lemma PutFirst(x: string, s: seq<string>)
    requires StrictlySorted(s) && forall y :: y in s ==> AtMost(x, y) && y != x
    ensures StrictlySorted([x] + s)
  {
  }

  /** A set has one least string. */
  lemma {:induction false} LeastExists(s: set<string>)
    requires s != {}
    ensures exists x :: x in s && forall y :: y in s ==> AtMost(x, y)
    ensures forall x, y :: x in s && y in s && AtMost(x, y) && AtMost(y, x) ==> x == y
    decreases |s|
  {
    forall x, y | x in s && y in s && AtMost(x, y) && AtMost(y, x)
      ensures x == y
    {
      Antisymmetric(x, y);
    }
    var first :| first in s;
    Total(first, first);
    var rest := s - {first};
    if rest == {} {
      assert s == {first};
    } else {
      LeastExists(rest);
      var x :| x in rest && forall y :: y in rest ==> AtMost(x, y);
      Total(x, first);
      if AtMost(x, first) {
        assert forall y :: y in s ==> y == first || y in rest;
        assert x in s && forall y :: y in s ==> AtMost(x, y);
      } else {
        forall y | y in s
          ensures AtMost(first, y)
        {
          if y != first {
            Transitive(first, x, y);
          }
        }
      }
    }
  }

  /** `sorted(s)` of a set. */
  function Sorted(s: set<string>): (r: seq<string>)
    ensures StrictlySorted(r)
    ensures forall y :: y in r <==> y in s
    decreases |s|
  {
    if s == {} then []
    else
      LeastExists(s);
      var x :| x in s && forall y :: y in s ==> AtMost(x, y);
      var rest := Sorted(s - {x});
      PutFirst(x, rest);
      [x] + rest
  }

  /** There is one way to sort a set. */
  lemma {:induction false} SortedOnce(s: seq<string>, t: seq<string>)
    requires StrictlySorted(s) && StrictlySorted(t)
    requires forall x :: x in s <==> x in t
    ensures s == t
  {
    if s == [] {
      Inhabited(t);
    } else {
      assert s[0] in s && t != [] by { assert s[0] in t; }
      FirstIsLeast(s, t);
      forall x
        ensures x in s[1..] <==> x in t[1..]
      {
        TailHas(s, x);
        TailHas(t, x);
      }
      SortedOnce(s[1..], t[1..]);
      assert s == [s[0]] + s[1..] && t == [t[0]] + t[1..];
    }
  }

  lemma Inhabited(t: seq<string>)
    ensures t == [] || exists x :: x in t
  {
    if t != [] {
      assert t[0] in t;
    }
  }

  lemma FirstIsLeast(s: seq<string>, t: seq<string>)
    requires StrictlySorted(s) && StrictlySorted(t) && s != [] && t != []
    requires forall x :: x in s <==> x in t
    ensures s[0] == t[0]
  {
    assert s[0] in s && t[0] in t;
    var i :| 0 <= i < |t| && t[i] == s[0];
    var j :| 0 <= j < |s| && s[j] == t[0];
    if i > 0 && j > 0 {
      Antisymmetric(s[0], t[0]);
    }
  }

  lemma TailHas(s: seq<string>, x: string)
    requires StrictlySorted(s) && s != []
    ensures x in s[1..] <==> x in s && x != s[0]
  {
    if x in s && x != s[0] {
      var i :| 0 <= i < |s| && s[i] == x;
      assert s[1..][i - 1] == x;
    }
  }

  /** Sorting the members of what is sorted changes nothing. */
  lemma SortedIsFixed(s: seq<string>)
    requires StrictlySorted(s)
    ensures Sorted(set x | x in s) == s
  {
    SortedOnce(Sorted(set x | x in s), s);
  }
}
