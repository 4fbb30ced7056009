/** The dependency closure of `generate_third_party_licenses.py`: a stack worklist over
    installed distributions that may require each other in cycles. */
module Closure {
  import opened Wrappers

  datatype Req = Req(name: string, extras: seq<string>)

  /** One `Requires-Dist` line; its marker is a function of the extra it is evaluated for. */
  datatype Spec = Spec(child: Req, marker: Option<string -> bool>)

  /** What is installed, by canonical name. */
  datatype Env = Env(canonical: string -> string, dists: map<string, seq<Spec>>)

  function Name(env: Env, req: Req): string {
    env.canonical(req.name)
  }

  /** The marker holds with no extra, or with one that was asked for. */
  predicate Wanted(spec: Spec, extras: seq<string>) {
    spec.marker.None? || (exists e :: e in extras && spec.marker.value(e)) || spec.marker.value("")
  }

  /** The requirements a distribution adds when asked for with `extras`, in its order. */
  function Children(specs: seq<Spec>, extras: seq<string>): seq<Req> {
    if specs == [] then []
    else Children(specs[..|specs| - 1], extras) +
         (if Wanted(specs[|specs| - 1], extras) then [specs[|specs| - 1].child] else [])
  }

  /** The closure once the stack `pending` is worked off: the last requirement first. */
  function Walk(env: Env, closure: set<string>, pending: seq<Req>): set<string>
    decreases env.dists.Keys - closure, |pending|
  {
    if pending == [] then closure
    else
      var req, rest := pending[|pending| - 1], pending[..|pending| - 1];
      var name := Name(env, req);
      if name in closure || name !in env.dists then Walk(env, closure, rest)
      else
        assert name in env.dists.Keys - closure;
        Walk(env, closure + {name}, rest + Children(env.dists[name], req.extras))
  }

  /** The transitive closure of the pins; it terminates on every graph. */
  method DeclaredDependencies(env: Env, roots: seq<Req>) returns (closure: set<string>)
    ensures closure == Walk(env, {}, roots)
  {
    closure := {};
    var pending := roots;
    while pending != []
      invariant Walk(env, {}, roots) == Walk(env, closure, pending)
      decreases env.dists.Keys - closure, |pending|
    {
      var req := pending[|pending| - 1];
      pending := pending[..|pending| - 1];
      var name := Name(env, req);
      if name in closure {
        continue;
      }
      if name !in env.dists {
        continue;
      }
      assert name in env.dists.Keys - closure;
      closure := closure + {name};
      var specs, before := env.dists[name], pending;
      for k := 0 to |specs|
        invariant pending == before + Children(specs[..k], req.extras)
      {
        assert specs[..k + 1][..k] == specs[..k];
        if specs[k].marker.Some? {
          var wanted := Wanted(specs[k], req.extras);
          if !wanted {
            continue;
          }
        }
        pending := pending + [specs[k].child];
      }
      assert specs[..|specs|] == specs;
    }
  }

  // --- Any pop order ---

  /** Which pending requirement comes up next; any number stands for one of them. */
  type Pick = (set<string>, seq<Req>) -> nat

  function Choice(pick: Pick, closure: set<string>, pending: seq<Req>): (i: nat)
    requires pending != []
    ensures i < |pending|
  {
    pick(closure, pending) % |pending|
  }

  function Without(pending: seq<Req>, i: nat): seq<Req>
    requires i < |pending|
  {
    pending[..i] + pending[i + 1..]
  }

  /** The closure with the requirements popped in any order. */
  function WalkBy(env: Env, closure: set<string>, pending: seq<Req>, pick: Pick): set<string>
    decreases env.dists.Keys - closure, |pending|
  {
    if pending == [] then closure
    else
      var i := Choice(pick, closure, pending);
      var req, rest := pending[i], Without(pending, i);
      var name := Name(env, req);
      if name in closure || name !in env.dists then WalkBy(env, closure, rest, pick)
      else
        assert name in env.dists.Keys - closure;
        WalkBy(env, closure + {name}, rest + Children(env.dists[name], req.extras), pick)
  }

  function Last(): Pick {
    (closure, pending) => if pending == [] then 0 else |pending| - 1
  }

  /** The stack is one such order. */
  lemma {:induction false} WalkPicksTheLast(env: Env, closure: set<string>, pending: seq<Req>)
    ensures Walk(env, closure, pending) == WalkBy(env, closure, pending, Last())
    decreases env.dists.Keys - closure, |pending|
  {
    if pending != [] {
      var n := |pending| - 1;
      var req, rest := pending[n], pending[..n];
      var name := Name(env, req);
      assert Choice(Last(), closure, pending) == n && Without(pending, n) == rest;
      if name in closure || name !in env.dists {
        WalkPicksTheLast(env, closure, rest);
      } else {
        assert name in env.dists.Keys - closure;
        WalkPicksTheLast(env, closure + {name}, rest + Children(env.dists[name], req.extras));
      }
    }
  }

  lemma WithoutHas(pending: seq<Req>, i: nat, r: Req)
    requires i < |pending|
    ensures r in pending <==> r in Without(pending, i) || r == pending[i]
  {
    assert pending == pending[..i] + [pending[i]] + pending[i + 1..];
  }

  // --- Reachability ---

  /** `from` requires `to`, with the extras it asks for. */
  ghost predicate Edge(env: Env, from: Req, to: Req) {
    var name := Name(env, from);
    name in env.dists &&
    exists k :: 0 <= k < |env.dists[name]| && env.dists[name][k].child == to && Wanted(env.dists[name][k], from.extras)
  }

  ghost function Edges(env: Env): (Req, Req) -> bool {
    (from, to) => Edge(env, from, to)
  }

  ghost predicate IsPath(edge: (Req, Req) -> bool, roots: seq<Req>, path: seq<Req>) {
    && path != [] && path[0] in roots
    && forall k :: 0 <= k < |path| - 1 ==> edge(path[k], path[k + 1])
  }

  ghost predicate EndsAt(edge: (Req, Req) -> bool, roots: seq<Req>, path: seq<Req>, req: Req) {
    IsPath(edge, roots, path) && path[|path| - 1] == req
  }

  /** Some chain of requirements leads from a root to this one. */
  ghost predicate Reached(edge: (Req, Req) -> bool, roots: seq<Req>, req: Req) {
    exists path :: EndsAt(edge, roots, path, req)
  }

  /** An installed distribution some requirement reaches. */
  ghost predicate Reaches(env: Env, edge: (Req, Req) -> bool, roots: seq<Req>, name: string) {
    name in env.dists && exists r :: Name(env, r) == name && Reached(edge, roots, r)
  }

  /** Wanted by every reached requirement of its distribution, whatever extras it asks for. */
  ghost predicate Always(env: Env, roots: seq<Req>, name: string, spec: Spec) {
    forall r :: Reached(Edges(env), roots, r) && Name(env, r) == name ==> Wanted(spec, r.extras)
  }

  /** `from` requires `to` however `from`'s distribution is asked for. */
  ghost predicate SureEdge(env: Env, roots: seq<Req>, from: Req, to: Req) {
    var name := Name(env, from);
    name in env.dists &&
    exists k :: 0 <= k < |env.dists[name]| && env.dists[name][k].child == to
                && Always(env, roots, name, env.dists[name][k])
  }

  ghost function SureEdges(env: Env, roots: seq<Req>): (Req, Req) -> bool {
    (from, to) => SureEdge(env, roots, from, to)
  }

  lemma {:induction false} ChildrenAre(specs: seq<Spec>, extras: seq<string>)
    ensures forall c :: c in Children(specs, extras) ==>
              exists k :: 0 <= k < |specs| && specs[k].child == c && Wanted(specs[k], extras)
    ensures forall k :: 0 <= k < |specs| && Wanted(specs[k], extras) ==> specs[k].child in Children(specs, extras)
  {
    hide Wanted;
    if specs != [] {
      var n := |specs| - 1;
      ChildrenAre(specs[..n], extras);
    }
  }

  lemma RootIsReached(edge: (Req, Req) -> bool, roots: seq<Req>, req: Req)
    requires req in roots
    ensures Reached(edge, roots, req)
  {
    assert EndsAt(edge, roots, [req], req);
  }

  lemma ChildIsReached(edge: (Req, Req) -> bool, roots: seq<Req>, from: Req, to: Req)
    requires Reached(edge, roots, from) && edge(from, to)
    ensures Reached(edge, roots, to)
  {
    var path :| EndsAt(edge, roots, path, from);
    assert EndsAt(edge, roots, path + [to], to);
  }

  /** Every requirement on a path is reached. */
  lemma PathIsReached(edge: (Req, Req) -> bool, roots: seq<Req>, path: seq<Req>, n: nat)
    requires IsPath(edge, roots, path) && n < |path|
    ensures Reached(edge, roots, path[n])
  {
    assert EndsAt(edge, roots, path[..n + 1], path[n]);
  }

  // --- At most what is reachable ---

  /** Everything pending and everything found is reachable. */
  ghost predicate Upper(env: Env, roots: seq<Req>, closure: set<string>, pending: seq<Req>) {
    && (forall r :: r in pending ==> Reached(Edges(env), roots, r))
    && (forall n :: n in closure ==> Reaches(env, Edges(env), roots, n))
  }

  lemma {:induction false} WalkAtMost(env: Env, roots: seq<Req>, closure: set<string>, pending: seq<Req>, pick: Pick)
    requires Upper(env, roots, closure, pending)
    ensures forall n :: n in WalkBy(env, closure, pending, pick) ==> Reaches(env, Edges(env), roots, n)
    decreases env.dists.Keys - closure, |pending|
  {
    hide Reached, Edge, Wanted, Without, Choice;
    if pending != [] {
      var i := Choice(pick, closure, pending);
      var req, rest := pending[i], Without(pending, i);
      var name := Name(env, req);
      assert req in pending;
      forall r ensures r in rest ==> r in pending {
        WithoutHas(pending, i, r);
      }
      FewerPending(pending, i);
      if name in closure || name !in env.dists {
        WalkAtMost(env, roots, closure, rest, pick);
      } else {
        var children := Children(env.dists[name], req.extras);
        forall c | c in children
          ensures Reached(Edges(env), roots, c)
        {
          ChildIsEdge(env, req, c);
          ChildIsReached(Edges(env), roots, req, c);
        }
        assert name in env.dists.Keys - closure;
        WalkAtMost(env, roots, closure + {name}, rest + children, pick);
      }
    }
  }

  lemma FewerPending(pending: seq<Req>, i: nat)
    requires i < |pending|
    ensures |Without(pending, i)| < |pending|
  {
  }

  lemma ChildIsEdge(env: Env, req: Req, c: Req)
    requires Name(env, req) in env.dists && c in Children(env.dists[Name(env, req)], req.extras)
    ensures Edge(env, req, c)
  {
    hide Wanted;
    ChildrenAre(env.dists[Name(env, req)], req.extras);
  }

  // --- At least what is surely reachable ---

  /** Found, still to be read, or not installed. */
  predicate Handled(env: Env, closure: set<string>, pending: seq<Req>, req: Req) {
    req in pending || Name(env, req) in closure || Name(env, req) !in env.dists
  }

  /** What every found distribution surely requires is handled, and so is every root. */
  ghost predicate Lower(env: Env, roots: seq<Req>, closure: set<string>, pending: seq<Req>) {
    && (forall r :: r in pending ==> Reached(Edges(env), roots, r))
    && (forall r :: r in roots ==> Handled(env, closure, pending, r))
    && (forall from, to :: Name(env, from) in closure && SureEdge(env, roots, from, to)
                           ==> Handled(env, closure, pending, to))
  }

  lemma {:induction false} WalkAtLeast(env: Env, roots: seq<Req>, closure: set<string>, pending: seq<Req>, pick: Pick)
    requires Lower(env, roots, closure, pending)
    ensures Lower(env, roots, WalkBy(env, closure, pending, pick), [])
    decreases env.dists.Keys - closure, |pending|
  {
    hide Lower, Children, Without, Choice;
    if pending != [] {
      var i := Choice(pick, closure, pending);
      var req, rest := pending[i], Without(pending, i);
      var name := Name(env, req);
      FewerPending(pending, i);
      if name in closure || name !in env.dists {
        SkipAtLeast(env, roots, closure, pending, i);
        WalkAtLeast(env, roots, closure, rest, pick);
      } else {
        assert name in env.dists.Keys - closure;
        StepAtLeast(env, roots, closure, pending, i);
        WalkAtLeast(env, roots, closure + {name}, rest + Children(env.dists[name], req.extras), pick);
      }
    }
  }

  lemma SkipAtLeast(env: Env, roots: seq<Req>, closure: set<string>, pending: seq<Req>, i: nat)
    requires Lower(env, roots, closure, pending) && i < |pending|
    requires Name(env, pending[i]) in closure || Name(env, pending[i]) !in env.dists
    ensures Lower(env, roots, closure, Without(pending, i))
  {
    hide SureEdge, Reached, Without;
    forall r ensures r in pending <==> r in Without(pending, i) || r == pending[i] {
      WithoutHas(pending, i, r);
    }
  }

  lemma StepAtLeast(env: Env, roots: seq<Req>, closure: set<string>, pending: seq<Req>, i: nat)
    requires i < |pending| && Name(env, pending[i]) in env.dists && Lower(env, roots, closure, pending)
    ensures var req := pending[i];
            Lower(env, roots, closure + {Name(env, req)},
                  Without(pending, i) + Children(env.dists[Name(env, req)], req.extras))
  {
    hide SureEdge, Edge, Reached, Without, Children;
    var req, rest := pending[i], Without(pending, i);
    var name := Name(env, req);
    var children := Children(env.dists[name], req.extras);
    forall r ensures r in pending <==> r in rest || r == req {
      WithoutHas(pending, i, r);
    }
    assert req in pending;
    forall c | c in children
      ensures Reached(Edges(env), roots, c)
    {
      ChildIsEdge(env, req, c);
      ChildIsReached(Edges(env), roots, req, c);
    }
    forall from, to | Name(env, from) == name && SureEdge(env, roots, from, to)
      ensures to in children
    {
      SureEdgeIsChild(env, roots, req, from, to);
    }
  }

  lemma SureEdgeIsChild(env: Env, roots: seq<Req>, req: Req, from: Req, to: Req)
    requires Reached(Edges(env), roots, req) && Name(env, from) == Name(env, req)
    requires SureEdge(env, roots, from, to)
    ensures to in Children(env.dists[Name(env, req)], req.extras)
  {
    hide Wanted, Reached;
    ChildrenAre(env.dists[Name(env, req)], req.extras);
  }

  lemma {:induction false} PathIsFound(env: Env, roots: seq<Req>, found: set<string>, path: seq<Req>, n: nat)
    requires Lower(env, roots, found, []) && IsPath(SureEdges(env, roots), roots, path) && n < |path|
    requires forall k :: 0 <= k < |path| ==> Name(env, path[k]) in env.dists
    ensures Name(env, path[n]) in found
  {
    hide SureEdge, Reached;
    if n > 0 {
      PathIsFound(env, roots, found, path, n - 1);
      assert SureEdges(env, roots)(path[n - 1], path[n - 1 + 1]);
    }
    assert Handled(env, found, [], path[n]);
  }

  /** The two bounds, on every graph, from any roots and in any order: what is found is
      installed and reachable with the extras asked for, and whatever is surely reachable is
      found. */
  lemma ClosureBounds(env: Env, roots: seq<Req>, pick: Pick, name: string)
    ensures name in WalkBy(env, {}, roots, pick) ==> Reaches(env, Edges(env), roots, name)
    ensures Reaches(env, SureEdges(env, roots), roots, name) ==> name in WalkBy(env, {}, roots, pick)
  {
    hide SureEdge, Edge, Reached, WalkBy;
    forall r | r in roots
      ensures Reached(Edges(env), roots, r)
    {
      RootIsReached(Edges(env), roots, r);
    }
    WalkAtMost(env, roots, {}, roots, pick);
    WalkAtLeast(env, roots, {}, roots, pick);
    if Reaches(env, SureEdges(env, roots), roots, name) {
      var r :| Name(env, r) == name && Reached(SureEdges(env, roots), roots, r);
      SurePathIsFound(env, roots, WalkBy(env, {}, roots, pick), r);
    }
  }

  lemma SurePathIsFound(env: Env, roots: seq<Req>, found: set<string>, r: Req)
    requires Lower(env, roots, found, []) && Reached(SureEdges(env, roots), roots, r) && Name(env, r) in env.dists
    ensures Name(env, r) in found
  {
    hide Lower, Always;
    var path :| EndsAt(SureEdges(env, roots), roots, path, r);
    forall k | 0 <= k < |path|
      ensures Name(env, path[k]) in env.dists
    {
      assert k < |path| - 1 ==> SureEdges(env, roots)(path[k], path[k + 1]);
    }
    PathIsFound(env, roots, found, path, |path| - 1);
  }

  /** A line with no marker, or with one that holds without any extra, is surely required. */
  lemma ExtraFreeIsSure(env: Env, roots: seq<Req>, name: string, spec: Spec)
    requires Wanted(spec, [])
    ensures Always(env, roots, name, spec)
  {
    hide Reached;
  }

  // --- When it is exact ---

  /** The reached requirements of one distribution all want the same of it. */
  ghost predicate Uniform(env: Env, roots: seq<Req>) {
    forall r, s, k :: Reached(Edges(env), roots, r) && Reached(Edges(env), roots, s) && Name(env, r) == Name(env, s)
                      && Name(env, r) in env.dists && 0 <= k < |env.dists[Name(env, r)]|
                      && Wanted(env.dists[Name(env, r)][k], r.extras)
                      ==> Wanted(env.dists[Name(env, r)][k], s.extras)
  }

  /** Where no distribution is reached by requirements that want different things of it, the
      result is exactly what is installed and reachable, whatever the pop order. */
  lemma ClosureIsExact(env: Env, roots: seq<Req>, pick: Pick, name: string)
    requires Uniform(env, roots)
    ensures name in WalkBy(env, {}, roots, pick) <==> Reaches(env, Edges(env), roots, name)
  {
    hide WalkBy, Edge, SureEdge, Reached, Uniform;
    ClosureBounds(env, roots, pick, name);
    if Reaches(env, Edges(env), roots, name) {
      var r :| Name(env, r) == name && Reached(Edges(env), roots, r);
      ReachedIsSure(env, roots, r);
    }
  }

  lemma ReachedIsSure(env: Env, roots: seq<Req>, r: Req)
    requires Uniform(env, roots) && Reached(Edges(env), roots, r)
    ensures Reached(SureEdges(env, roots), roots, r)
  {
    hide Edge, SureEdge, Uniform;
    var path :| EndsAt(Edges(env), roots, path, r);
    forall k | 0 <= k < |path| - 1
      ensures SureEdges(env, roots)(path[k], path[k + 1])
    {
      assert Edges(env)(path[k], path[k + 1]);
      PathIsReached(Edges(env), roots, path, k);
      EdgeIsSure(env, roots, path[k], path[k + 1]);
    }
    assert EndsAt(SureEdges(env, roots), roots, path, r);
  }

  lemma EdgeIsSure(env: Env, roots: seq<Req>, from: Req, to: Req)
    requires Uniform(env, roots) && Reached(Edges(env), roots, from) && Edge(env, from, to)
    ensures SureEdge(env, roots, from, to)
  {
    hide Wanted, Reached;
    var name := Name(env, from);
    var k :| 0 <= k < |env.dists[name]| && env.dists[name][k].child == to && Wanted(env.dists[name][k], from.extras);
    assert Always(env, roots, name, env.dists[name][k]);
  }

  /** With no extras asked for by anything reached, that is so. */
  lemma NoExtrasIsUniform(env: Env, roots: seq<Req>)
    requires forall r :: Reached(Edges(env), roots, r) ==> r.extras == []
    ensures Uniform(env, roots)
  {
    hide Wanted, Reached;
  }

  /** When nothing reached asks for an extra, the closure is the reachable set in any order. */
  lemma NoExtrasIsExact(env: Env, roots: seq<Req>, pick: Pick, name: string)
    requires forall r :: Reached(Edges(env), roots, r) ==> r.extras == []
    ensures name in WalkBy(env, {}, roots, pick) <==> Reaches(env, Edges(env), roots, name)
  {
    hide WalkBy, Reached, Reaches, Uniform;
    NoExtrasIsUniform(env, roots);
    ClosureIsExact(env, roots, pick, name);
  }

  /** Where it is exact, neither the pop order nor the order and repetition of the roots matter. */
  lemma OrderDoesNotMatter(env: Env, roots: seq<Req>, others: seq<Req>, pick: Pick, another: Pick)
    requires Uniform(env, roots) && forall r :: r in roots <==> r in others
    ensures WalkBy(env, {}, roots, pick) == WalkBy(env, {}, others, another)
  {
    hide WalkBy, Edge, Wanted, Reached;
    forall r ensures Reached(Edges(env), roots, r) <==> Reached(Edges(env), others, r) {
      SameReach(Edges(env), roots, others, r);
    }
    forall name
      ensures name in WalkBy(env, {}, roots, pick) <==> name in WalkBy(env, {}, others, another)
    {
      ClosureIsExact(env, roots, pick, name);
      ClosureIsExact(env, others, another, name);
    }
  }

  lemma SameReach(edge: (Req, Req) -> bool, roots: seq<Req>, others: seq<Req>, req: Req)
    requires forall r :: r in roots <==> r in others
    ensures Reached(edge, roots, req) <==> Reached(edge, others, req)
  {
    if Reached(edge, roots, req) {
      var path :| EndsAt(edge, roots, path, req);
      assert EndsAt(edge, others, path, req);
    }
    if Reached(edge, others, req) {
      var path :| EndsAt(edge, others, path, req);
      assert EndsAt(edge, roots, path, req);
    }
  }

  // --- Extras can be lost ---

  const PLAIN := Req("a", [])
  const BARE := Req("b", [])
  const WITH_EXTRA := Req("b", ["x"])
  const TAIL := Req("c", [])

  /** `a` requires `b[x]`; `b` requires `c` for its extra `x` only. */
  function Example(): Env {
    Env(n => n, map["a" := [Spec(WITH_EXTRA, None)],
                    "b" := [Spec(TAIL, Some(e => e == "x"))],
                    "c" := []])
  }

  lemma ExampleChildren()
    ensures var dists := Example().dists;
            && Children(dists["a"], []) == [WITH_EXTRA] && Children(dists["b"], []) == []
            && Children(dists["b"], ["x"]) == [TAIL] && Children(dists["c"], []) == []
  {
    var dists := Example().dists;
    assert dists["a"][..0] == [] && dists["b"][..0] == [];
    assert Wanted(dists["b"][0], ["x"]) by { assert "x" in ["x"]; }
  }

  /** A distribution is read once, with the extras of the requirement that comes up first:
      with `b` popped before `a` asks for `b[x]` the closure lacks `c`. */
  lemma ExtrasCanBeLost()
    ensures Walk(Example(), {}, [PLAIN, BARE]) == {"a", "b"}
    ensures Reaches(Example(), Edges(Example()), [PLAIN, BARE], "c")
  {
    hide Walk, Children, Wanted, Reaches;
    var env := Example();
    WalkEnds(env, {"a", "b"});
    calc {
      Walk(env, {}, [PLAIN, BARE]);
      { assert [PLAIN] + [BARE] == [PLAIN, BARE]; WalkSteps(env, {}, [PLAIN], BARE); ExampleChildren();
        assert {} + {"b"} == {"b"} && [PLAIN] + [] == [] + [PLAIN]; }
      Walk(env, {"b"}, [] + [PLAIN]);
      { WalkSteps(env, {"b"}, [], PLAIN); ExampleChildren(); assert {"b"} + {"a"} == {"a", "b"}; }
      Walk(env, {"a", "b"}, [] + [WITH_EXTRA]);
      { WalkSteps(env, {"a", "b"}, [], WITH_EXTRA); }
      Walk(env, {"a", "b"}, []);
    }
    ExampleReachesTail();
  }

  lemma ExampleReachesTail()
    ensures Reaches(Example(), Edges(Example()), [PLAIN, BARE], "c")
  {
    var env, roots := Example(), [PLAIN, BARE];
    RootIsReached(Edges(env), roots, PLAIN);
    assert Edge(env, PLAIN, WITH_EXTRA) by { assert env.dists["a"][0].child == WITH_EXTRA; }
    ChildIsReached(Edges(env), roots, PLAIN, WITH_EXTRA);
    assert Edge(env, WITH_EXTRA, TAIL) by {
      assert env.dists["b"][0].child == TAIL && "x" in ["x"];
    }
    ChildIsReached(Edges(env), roots, WITH_EXTRA, TAIL);
    assert Name(env, TAIL) == "c";
  }

  /** The same two roots in the other order give it. */
  lemma ExtrasKeptInTheOtherOrder()
    ensures Walk(Example(), {}, [BARE, PLAIN]) == {"a", "b", "c"}
  {
    hide Walk, Children, Wanted;
    var env := Example();
    WalkEnds(env, {"a", "b", "c"});
    ExampleChildren();
    calc {
      Walk(env, {}, [BARE, PLAIN]);
      { assert [BARE] + [PLAIN] == [BARE, PLAIN]; WalkSteps(env, {}, [BARE], PLAIN);
        assert {} + {"a"} == {"a"}; }
      Walk(env, {"a"}, [BARE] + [WITH_EXTRA]);
      { WalkSteps(env, {"a"}, [BARE], WITH_EXTRA); assert {"a"} + {"b"} == {"a", "b"}; }
      Walk(env, {"a", "b"}, [BARE] + [TAIL]);
      { WalkSteps(env, {"a", "b"}, [BARE], TAIL); assert {"a", "b"} + {"c"} == {"a", "b", "c"};
        assert [BARE] + [] == [] + [BARE]; }
      Walk(env, {"a", "b", "c"}, [] + [BARE]);
      { WalkSteps(env, {"a", "b", "c"}, [], BARE); }
      Walk(env, {"a", "b", "c"}, []);
    }
  }

  lemma WalkEnds(env: Env, closure: set<string>)
    ensures Walk(env, closure, []) == closure
  {
  }

  lemma WalkSteps(env: Env, closure: set<string>, rest: seq<Req>, req: Req)
    ensures var name := Name(env, req);
            Walk(env, closure, rest + [req]) ==
            if name in closure || name !in env.dists then Walk(env, closure, rest)
            else Walk(env, closure + {name}, rest + Children(env.dists[name], req.extras))
  {
    assert (rest + [req])[..|rest|] == rest;
  }

  // --- The condition is not needed ---

  /** `b` requires itself without extras, and `c` for its extra `x`. */
  function Circle(): Env {
    Env(n => n, map["b" := [Spec(BARE, None), Spec(TAIL, Some(e => e == "x"))], "c" := []])
  }

  lemma WalkByStep(env: Env, closure: set<string>, pending: seq<Req>, pick: Pick, i: nat)
    requires pending != [] && i == Choice(pick, closure, pending)
    ensures var req, rest := pending[i], Without(pending, i);
            var name := Name(env, req);
            WalkBy(env, closure, pending, pick) ==
            if name in closure || name !in env.dists then WalkBy(env, closure, rest, pick)
            else WalkBy(env, closure + {name}, rest + Children(env.dists[name], req.extras), pick)
  {
    hide Choice, Without, Children;
  }

  lemma CircleChildren()
    ensures Children(Circle().dists["b"], ["x"]) == [BARE, TAIL] && Children(Circle().dists["c"], []) == []
  {
    var specs := Circle().dists["b"];
    assert specs[..1] == [specs[0]] && specs[..1][..0] == [];
    assert Wanted(specs[1], ["x"]) by { assert "x" in ["x"]; }
    assert Children(specs[..1], ["x"]) == [BARE];
    assert specs[..|specs| - 1] == specs[..1];
  }

  /** The two requirements of `b` want different things of it, and still every order finds the
      reachable set: the one without the extra is only met when `b` has been read. Whether some
      order loses a name depends on which requirement can come first for every distribution on
      the way. That is as hard to tell as whether clauses can be met together: let each variable
      be required with two extras, which require the clauses that it and its negation meet, and
      each clause also with an extra for one common name; the name is lost in some order exactly
      when an assignment meets every clause. */
  lemma UniformIsNotNeeded(pick: Pick)
    ensures !Uniform(Circle(), [WITH_EXTRA])
    ensures WalkBy(Circle(), {}, [WITH_EXTRA], pick) == {"b", "c"}
  {
    CircleIsNotUniform();
    hide Uniform, WalkBy, Children, Choice;
    var env := Circle();
    CircleChildren();
    WalkByStep(env, {}, [WITH_EXTRA], pick, 0);
    assert {} + {"b"} == {"b"} && Without([WITH_EXTRA], 0) + [BARE, TAIL] == [BARE, TAIL];
    CircleEnds(pick);
  }

  lemma CircleEnds(pick: Pick)
    ensures WalkBy(Circle(), {"b"}, [BARE, TAIL], pick) == {"b", "c"}
  {
    hide WalkBy, Children, Choice;
    var env, both := Circle(), {"b"} + {"c"};
    CircleChildren();
    var i := Choice(pick, {"b"}, [BARE, TAIL]);
    WalkByStep(env, {"b"}, [BARE, TAIL], pick, i);
    WalkByEnds(env, both, pick);
    if i == 0 {
      assert Without([BARE, TAIL], 0) == [TAIL];
      WalkByStep(env, {"b"}, [TAIL], pick, 0);
      assert Without([TAIL], 0) + [] == [];
    } else {
      assert Without([BARE, TAIL], 1) + [] == [BARE];
      WalkByStep(env, both, [BARE], pick, 0);
      assert Without([BARE], 0) == [];
    }
  }

  lemma WalkByEnds(env: Env, closure: set<string>, pick: Pick)
    ensures WalkBy(env, closure, [], pick) == closure
  {
  }

  lemma CircleIsNotUniform()
    ensures !Uniform(Circle(), [WITH_EXTRA])
  {
    hide Reached;
    var env, roots := Circle(), [WITH_EXTRA];
    RootIsReached(Edges(env), roots, WITH_EXTRA);
    assert Edge(env, WITH_EXTRA, BARE) by { assert env.dists["b"][0].child == BARE; }
    ChildIsReached(Edges(env), roots, WITH_EXTRA, BARE);
    assert Wanted(env.dists["b"][1], ["x"]) by { assert "x" in ["x"]; }
    assert !Wanted(env.dists["b"][1], []);
  }

  // --- The order of the lines ---

  /** The last line that is wanted is popped next, and the ones above it stay below it: a line
      counts when it has no marker, or one that holds without an extra or with one asked for. */
  lemma {:induction false} LastLineNext(specs: seq<Spec>, extras: seq<string>, k: nat)
    requires k < |specs|
    requires forall j :: k < j < |specs| ==>
               && specs[j].marker.Some? && !specs[j].marker.value("")
               && forall e :: e in extras ==> !specs[j].marker.value(e)
    requires specs[k].marker.None? || specs[k].marker.value("") || exists e :: e in extras && specs[k].marker.value(e)
    ensures Children(specs, extras) == Children(specs[..k], extras) + [specs[k].child]
    decreases |specs|
  {
    var n := |specs| - 1;
    if k < n {
      assert forall j :: k < j < n ==> specs[..n][j] == specs[j];
      LastLineNext(specs[..n], extras, k);
      assert specs[..n][..k] == specs[..k];
    }
  }

  /** `a` requires `b` without and with its extra, in this order or the other. */
  function Lines(extraLast: bool): Env {
    Env(n => n, map["a" := if extraLast then [Spec(BARE, None), Spec(WITH_EXTRA, None)]
                           else [Spec(WITH_EXTRA, None), Spec(BARE, None)],
                    "b" := [Spec(TAIL, Some(e => e == "x"))],
                    "c" := []])
  }

  lemma LinesAre(extraLast: bool)
    ensures var dists := Lines(extraLast).dists;
            && Children(dists["a"], []) == (if extraLast then [BARE, WITH_EXTRA] else [WITH_EXTRA, BARE])
            && Children(dists["b"], []) == [] && Children(dists["b"], ["x"]) == [TAIL]
            && Children(dists["c"], []) == []
  {
    var dists := Lines(extraLast).dists;
    var a, b := dists["a"], dists["b"];
    assert a[..1] == [a[0]] && a[..1][..0] == [] && b[..0] == [];
    assert Children(a[..1], []) == [a[0].child];
    assert Wanted(b[0], ["x"]) by { assert "x" in ["x"]; }
  }

  /** The later of two lines about one distribution decides: `c` is found exactly when the line that
      asks for the extra is the later one. */
  lemma LaterLineDecides(extraLast: bool)
    ensures Walk(Lines(extraLast), {}, [PLAIN]) == if extraLast then {"a", "b", "c"} else {"a", "b"}
  {
    hide Walk, Children, Wanted;
    var env := Lines(extraLast);
    LinesAre(extraLast);
    WalkEnds(env, {"a", "b", "c"});
    WalkEnds(env, {"a", "b"});
    WalkSteps(env, {}, [], PLAIN);
    assert [] + [PLAIN] == [PLAIN] && {} + {"a"} == {"a"};
    if extraLast {
      assert [] + [BARE, WITH_EXTRA] == [BARE] + [WITH_EXTRA];
      WalkSteps(env, {"a"}, [BARE], WITH_EXTRA);
      assert {"a"} + {"b"} == {"a", "b"};
      WalkSteps(env, {"a", "b"}, [BARE], TAIL);
      assert {"a", "b"} + {"c"} == {"a", "b", "c"} && [BARE] + [] == [] + [BARE];
      WalkSteps(env, {"a", "b", "c"}, [], BARE);
    } else {
      assert [] + [WITH_EXTRA, BARE] == [WITH_EXTRA] + [BARE];
      WalkSteps(env, {"a"}, [WITH_EXTRA], BARE);
      assert {"a"} + {"b"} == {"a", "b"} && [WITH_EXTRA] + [] == [] + [WITH_EXTRA];
      WalkSteps(env, {"a", "b"}, [], WITH_EXTRA);
    }
  }
}
