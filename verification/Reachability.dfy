/** Reachability in a finite directed graph given as adjacency lists, and the worklist invariant that the
    stack walks of the sources share. Cycles are allowed. */
module Reachability {

  type Graph = map<string, seq<string>>

  function Succ(g: Graph, x: string): seq<string> {
    if x in g then g[x] else []
  }

  predicate IsPath(g: Graph, p: seq<string>) {
    p != [] && forall k | 0 <= k < |p| - 1 :: p[k + 1] in Succ(g, p[k])
  }

  /** `b` is reached from `a` by zero or more edges. */
  ghost predicate Reaches(g: Graph, a: string, b: string) {
    exists p :: IsPath(g, p) && p[0] == a && p[|p| - 1] == b
  }

  /** `b` is reached from `a` by one or more edges. */
  ghost predicate ReachesOver(g: Graph, a: string, b: string) {
    exists c :: c in Succ(g, a) && Reaches(g, c, b)
  }

  ghost predicate ReachedFrom(g: Graph, starts: seq<string>, b: string) {
    exists s :: s in starts && Reaches(g, s, b)
  }

  lemma ReachesSelf(g: Graph, a: string)
    ensures Reaches(g, a, a)
  {
    assert IsPath(g, [a]);
  }

  lemma ReachesNext(g: Graph, a: string, b: string, c: string)
    requires Reaches(g, a, b) && c in Succ(g, b)
    ensures Reaches(g, a, c)
  {
    var p :| IsPath(g, p) && p[0] == a && p[|p| - 1] == b;
    assert IsPath(g, p + [c]);
  }

  lemma {:induction false} ReachesTrans(g: Graph, a: string, q: seq<string>)
    requires IsPath(g, q) && Reaches(g, a, q[0])
    ensures Reaches(g, a, q[|q| - 1])
    decreases |q|
  {
    if |q| > 1 {
      var init := q[..|q| - 1];
      assert IsPath(g, init);
      ReachesTrans(g, a, init);
      assert q[|q| - 2 + 1] in Succ(g, q[|q| - 2]);
      ReachesNext(g, a, q[|q| - 2], q[|q| - 1]);
    }
  }

  lemma ReachesTransitive(g: Graph, a: string, b: string, c: string)
    requires Reaches(g, a, b) && Reaches(g, b, c)
    ensures Reaches(g, a, c)
  {
    var q :| IsPath(g, q) && q[0] == b && q[|q| - 1] == c;
    ReachesTrans(g, a, q);
  }

  /** Reachable by zero or more edges is the node itself or reachable by one or more. */
  lemma ReachesSplit(g: Graph, a: string, b: string)
    ensures Reaches(g, a, b) <==> a == b || ReachesOver(g, a, b)
  {
    ReachesSelf(g, a);
    if Reaches(g, a, b) && a != b {
      var p :| IsPath(g, p) && p[0] == a && p[|p| - 1] == b;
      assert p[0 + 1] in Succ(g, p[0]);
      assert IsPath(g, p[1..]);
      assert Reaches(g, p[1], b);
    }
    if c :| c in Succ(g, a) && Reaches(g, c, b) {
      ReachesNext(g, a, a, c);
      ReachesTransitive(g, a, c, b);
    }
  }

  lemma StartsAreSuccessors(g: Graph, a: string, b: string)
    ensures ReachedFrom(g, Succ(g, a), b) <==> ReachesOver(g, a, b)
  {
    hide Reaches;
  }

  lemma OneStart(g: Graph, a: string, b: string)
    ensures ReachedFrom(g, [a], b) <==> Reaches(g, a, b)
  {
    hide Reaches;
    assert a in [a];
  }

  predicate ClosedUnder(g: Graph, s: set<string>) {
    forall x, y | x in s && y in Succ(g, x) :: y in s
  }

  lemma {:induction false} ClosedHoldsPath(g: Graph, s: set<string>, p: seq<string>)
    requires ClosedUnder(g, s) && IsPath(g, p) && p[0] in s
    ensures p[|p| - 1] in s
    decreases |p|
  {
    if |p| > 1 {
      var init := p[..|p| - 1];
      assert IsPath(g, init);
      ClosedHoldsPath(g, s, init);
      assert p[|p| - 2 + 1] in Succ(g, p[|p| - 2]);
    }
  }

  // ---- the shared worklist invariant -------------------------------------

  function Universe(g: Graph, starts: seq<string>): set<string> {
    (set s | s in starts) + (set x, y | x in g && y in g[x] :: y)
  }

  /** A node a walk may come across: reachable, hence a start or the end of some edge. */
  ghost predicate Met(g: Graph, starts: seq<string>, x: string) {
    ReachedFrom(g, starts, x) && x in Universe(g, starts)
  }

  /** After some pops: everything seen or stacked is reachable, every start is seen or stacked, and every successor
      of a seen node is seen or stacked. */
  ghost predicate Walking(g: Graph, starts: seq<string>, seen: set<string>, stack: seq<string>) {
    && (forall x | x in seen || x in stack :: Met(g, starts, x))
    && (forall s | s in starts :: s in seen || s in stack)
    && (forall x, y | x in seen && y in Succ(g, x) :: y in seen || y in stack)
  }

  lemma MetNext(g: Graph, starts: seq<string>, x: string, y: string)
    requires Met(g, starts, x) && y in Succ(g, x)
    ensures Met(g, starts, y)
  {
    hide Reaches;
    var s :| s in starts && Reaches(g, s, x);
    ReachesNext(g, s, x, y);
  }

  lemma WalkStarts(g: Graph, starts: seq<string>)
    ensures Walking(g, starts, {}, starts)
  {
    hide Reaches;
    forall s | s in starts ensures Met(g, starts, s) {
      ReachesSelf(g, s);
    }
  }

  /** Popping a node that was seen before. */
  lemma WalkSkips(g: Graph, starts: seq<string>, seen: set<string>, rest: seq<string>, x: string)
    requires x in seen && Walking(g, starts, seen, rest + [x])
    ensures Walking(g, starts, seen, rest)
  {
    hide Met, Succ;
  }

  /** Popping a new node and pushing its successors. */
  lemma WalkVisits(g: Graph, starts: seq<string>, seen: set<string>, rest: seq<string>, x: string)
    requires x !in seen && Walking(g, starts, seen, rest + [x])
    ensures Walking(g, starts, seen + {x}, rest + Succ(g, x))
    ensures Universe(g, starts) - (seen + {x}) < Universe(g, starts) - seen
    ensures Met(g, starts, x)
  {
    hide Universe, ReachedFrom, Succ;
    assert x in rest + [x];
    assert Met(g, starts, x) && x in Universe(g, starts);
    assert Universe(g, starts) - (seen + {x}) < Universe(g, starts) - seen;
    forall y | y in Succ(g, x) ensures Met(g, starts, y) {
      MetNext(g, starts, x, y);
    }
    hide Met;
  }

  /** When the stack is empty, exactly the reachable nodes were seen. */
  lemma WalkEnds(g: Graph, starts: seq<string>, seen: set<string>)
    requires Walking(g, starts, seen, [])
    ensures forall x :: x in seen <==> ReachedFrom(g, starts, x)
  {
    hide Universe, Succ;
    assert ClosedUnder(g, seen);
    forall x | ReachedFrom(g, starts, x) ensures x in seen {
      var s :| s in starts && Reaches(g, s, x);
      var p :| IsPath(g, p) && p[0] == s && p[|p| - 1] == x;
      ClosedHoldsPath(g, seen, p);
    }
    forall x | x in seen ensures ReachedFrom(g, starts, x) {
      assert Met(g, starts, x);
    }
  }
}
