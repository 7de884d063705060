/** The code map's shortest relationship chain (scripts/codegraph.py): adjacency maps from a link list, breadth-first
    search with predecessor edges, and the walk back. */
module CodeGraph {

  datatype CodeEdge = CodeEdge(source: string, target: string, relation: string)

  /** One record of the map's link list; a malformed one lacks a source, a target or a relation. */
  datatype Link = Malformed | Good(edge: CodeEdge)

  datatype Loaded<+T> = Bad | Fine(value: T)

  type Adjacency = map<string, seq<CodeEdge>>

  function At(adj: Adjacency, x: string): seq<CodeEdge> {
    if x in adj then adj[x] else []
  }

  /** Edges in list order whose source is `x`. */
  function From(links: seq<Link>, x: string): seq<CodeEdge> {
    if links == [] then [] else
      var init := From(links[..|links| - 1], x);
      var last := links[|links| - 1];
      if last.Good? && last.edge.source == x then init + [last.edge] else init
  }

  function Into(links: seq<Link>, x: string): seq<CodeEdge> {
    if links == [] then [] else
      var init := Into(links[..|links| - 1], x);
      var last := links[|links| - 1];
      if last.Good? && last.edge.target == x then init + [last.edge] else init
  }

  lemma {:induction false} FromHolds(links: seq<Link>, x: string, e: CodeEdge)
    ensures e in From(links, x) <==> e.source == x && Good(e) in links
    decreases |links|
  {
    if links != [] {
      FromHolds(links[..|links| - 1], x, e);
      assert links == links[..|links| - 1] + [links[|links| - 1]];
    }
  }

  lemma {:induction false} IntoHolds(links: seq<Link>, x: string, e: CodeEdge)
    ensures e in Into(links, x) <==> e.target == x && Good(e) in links
    decreases |links|
  {
    if links != [] {
      IntoHolds(links[..|links| - 1], x, e);
      assert links == links[..|links| - 1] + [links[|links| - 1]];
    }
  }

  // ---- chains ------------------------------------------------------------

  /** `c` is a contiguous chain of out-edges that leads from `a` to `b`. */
  ghost predicate Chain(out: Adjacency, a: string, b: string, c: seq<CodeEdge>)
    decreases |c|
  {
    if c == [] then a == b else
      && c[|c| - 1].target == b
      && c[|c| - 1] in At(out, c[|c| - 1].source)
      && Chain(out, a, c[|c| - 1].source, c[..|c| - 1])
  }

  ghost predicate Linked(out: Adjacency, a: string, b: string) {
    exists c :: Chain(out, a, b, c)
  }

  lemma ChainLinks(out: Adjacency, a: string, b: string, c: seq<CodeEdge>)
    requires Chain(out, a, b, c)
    ensures Linked(out, a, b)
  {
  }

  lemma UnlinkedHasNoChain(out: Adjacency, a: string, b: string)
    requires !Linked(out, a, b)
    ensures forall c :: !Chain(out, a, b, c)
  {
  }

  /** Read forwards: the first edge leaves `a`, each edge starts where the one before ended, the last one enters `b`. */
  lemma {:induction false} ChainReadsForward(out: Adjacency, a: string, b: string, c: seq<CodeEdge>)
    requires Chain(out, a, b, c) && c != []
    ensures c[0].source == a && c[|c| - 1].target == b
    ensures forall k | 0 < k < |c| :: c[k].source == c[k - 1].target
    ensures forall k | 0 <= k < |c| :: c[k] in At(out, c[k].source)
    decreases |c|
  {
    if |c| > 1 {
      var init := c[..|c| - 1];
      ChainReadsForward(out, a, c[|c| - 1].source, init);
      assert forall k | 0 <= k < |init| :: c[k] == init[k];
    }
  }

  /** Every edge listed under `x` starts at `x`. */
  ghost predicate Sourced(out: Adjacency) {
    forall x, e | e in At(out, x) :: e.source == x
  }

  // ---- the search --------------------------------------------------------

  type Distance = map<string, nat>
  type Previous = map<string, CodeEdge>

  /** The predecessor edges form a tree of shortest hops rooted at `a`. */
  ghost predicate Tree(out: Adjacency, a: string, seen: set<string>, prev: Previous, dist: Distance) {
    && dist.Keys == seen && a in seen && dist[a] == 0 && prev.Keys == seen - {a}
    && forall x | x in prev :: Hop(out, prev, dist, x)
  }

  ghost predicate Hop(out: Adjacency, prev: Previous, dist: Distance, x: string)
    requires x in prev
  {
    && prev[x].target == x
    && prev[x] in At(out, prev[x].source)
    && prev[x].source in dist && x in dist
    && dist[x] == dist[prev[x].source] + 1
  }

  /** The queue holds seen nodes by non-decreasing distance, and nothing seen is more than a hop beyond its head. */
  ghost predicate Layered(dist: Distance, queue: seq<string>) {
    && (forall k | 0 <= k < |queue| :: queue[k] in dist)
    && (forall i, j | 0 <= i <= j < |queue| :: dist[queue[i]] <= dist[queue[j]])
    && (queue != [] ==> forall x | x in dist :: dist[x] <= dist[queue[0]] + 1)
  }

  ghost predicate Covered(dist: Distance, x: string, e: CodeEdge) {
    x in dist && e.target in dist && dist[e.target] <= dist[x] + 1
  }

  /** Every seen node that has left the queue has all its targets seen, at most one hop further. */
  ghost predicate Expanded(out: Adjacency, dist: Distance, queue: seq<string>) {
    forall x, e | x in dist && x !in queue && e in At(out, x) :: Covered(dist, x, e)
  }

  ghost predicate Searching(out: Adjacency, a: string, seen: set<string>, prev: Previous, dist: Distance,
                            queue: seq<string>) {
    Tree(out, a, seen, prev, dist) && Layered(dist, queue) && Expanded(out, dist, queue)
  }

  /** Everything within the distance of the queue's head has been seen, at no more than its chain's length. */
  lemma {:induction false} NearIsSeen(out: Adjacency, a: string, v: string, c: seq<CodeEdge>,
                                      seen: set<string>, prev: Previous, dist: Distance, queue: seq<string>)
    requires Sourced(out) && Searching(out, a, seen, prev, dist, queue)
    requires Chain(out, a, v, c) && (queue != [] ==> |c| <= dist[queue[0]])
    ensures v in dist && dist[v] <= |c|
    decreases |c|
  {
    hide Tree;
    if c == [] {
      assert Tree(out, a, seen, prev, dist) ==> a in dist && dist[a] == 0 by {
        RootSeen(out, a, seen, prev, dist);
      }
    } else {
      var e := c[|c| - 1];
      NearIsSeen(out, a, e.source, c[..|c| - 1], seen, prev, dist, queue);
      assert forall k | 0 <= k < |queue| :: dist[queue[0]] <= dist[queue[k]];
      assert Covered(dist, e.source, e);
    }
  }

  lemma RootSeen(out: Adjacency, a: string, seen: set<string>, prev: Previous, dist: Distance)
    ensures Tree(out, a, seen, prev, dist) ==> a in dist && dist[a] == 0
  {
  }

  /** A target met for the first time joins the tree one hop below `cur` and the end of the queue. */
  lemma Discover(out: Adjacency, a: string, seen: set<string>, prev: Previous, dist: Distance, queue: seq<string>,
                 e: CodeEdge)
    requires Sourced(out) && Searching(out, a, seen, prev, dist, queue)
    requires queue != [] && e in At(out, queue[0]) && e.target !in seen
    ensures Searching(out, a, seen + {e.target}, prev[e.target := e], dist[e.target := dist[queue[0]] + 1],
                      queue + [e.target])
  {
    var t, cur := e.target, queue[0];
    var prev', dist', queue' := prev[t := e], dist[t := dist[cur] + 1], queue + [t];
    forall x | x in prev' ensures Hop(out, prev', dist', x) {
      assert x != t ==> Hop(out, prev, dist, x);
    }
    forall x, f | x in dist' && x !in queue' && f in At(out, x) ensures Covered(dist', x, f) {
      assert t in queue';
      assert forall y | y in queue :: y in queue';
      assert Covered(dist, x, f);
    }
    forall i, j | 0 <= i <= j < |queue'| ensures dist'[queue'[i]] <= dist'[queue'[j]] {
      assert 0 <= i < |queue| ==> dist[queue[i]] <= dist[queue[0]] + 1;
    }
  }

  /** The head leaves the queue once all its targets are covered. */
  lemma Dequeue(out: Adjacency, a: string, seen: set<string>, prev: Previous, dist: Distance, cur: string,
                rest: seq<string>)
    requires Searching(out, a, seen, prev, dist, [cur] + rest)
    requires forall e | e in At(out, cur) :: Covered(dist, cur, e)
    ensures Searching(out, a, seen, prev, dist, rest)
  {
    var queue := [cur] + rest;
    forall i | 0 <= i < |rest| ensures rest[i] in dist && dist[cur] <= dist[rest[i]] {
      assert rest[i] == queue[i + 1] && queue[0] == cur;
    }
    forall i, j | 0 <= i <= j < |rest| ensures dist[rest[i]] <= dist[rest[j]] {
      assert rest[i] == queue[i + 1] && rest[j] == queue[j + 1];
    }
    forall x, e | x in dist && x !in rest && e in At(out, x) ensures Covered(dist, x, e) {
      assert x in queue <==> x == cur || x in rest;
    }
  }

  lemma SeenIsDist(out: Adjacency, a: string, seen: set<string>, prev: Previous, dist: Distance)
    requires Tree(out, a, seen, prev, dist)
    ensures dist.Keys == seen
  {
  }

  /** A target that was seen before is at most one hop beyond the head. */
  lemma TargetSeen(out: Adjacency, a: string, seen: set<string>, prev: Previous, dist: Distance, cur: string,
                   rest: seq<string>, e: CodeEdge)
    requires Searching(out, a, seen, prev, dist, [cur] + rest) && e.target in seen
    ensures Covered(dist, cur, e)
  {
    hide Hop;
    var queue, t := [cur] + rest, e.target;
    assert queue[0] == cur;
  }

  function Vertices(out: Adjacency, a: string): set<string> {
    {a} + set x, e | x in out && e in out[x] :: e.target
  }

  lemma RootIsVertex(out: Adjacency, a: string)
    ensures a in Vertices(out, a)
  {
  }

  lemma StartSearch(out: Adjacency, a: string)
    ensures Searching(out, a, {a}, map[], map[a := 0], [a])
  {
  }

  /** While `b` is unseen, every chain to it is longer than the head's distance. */
  lemma NotNear(out: Adjacency, a: string, b: string, seen: set<string>, prev: Previous, dist: Distance,
                queue: seq<string>)
    requires Sourced(out) && Searching(out, a, seen, prev, dist, queue) && queue != [] && b !in seen
    ensures queue[0] in dist && Beyond(out, a, b, dist[queue[0]])
  {
    hide Sourced, Hop, Expanded, Chain;
    assert Layered(dist, queue);
    forall c | Chain(out, a, b, c) ensures |c| > dist[queue[0]] {
      if |c| <= dist[queue[0]] {
        NearIsSeen(out, a, b, c, seen, prev, dist, queue);
      }
    }
  }

  ghost predicate Beyond(out: Adjacency, a: string, b: string, n: nat) {
    forall c | Chain(out, a, b, c) :: |c| > n
  }

  lemma Unreached(out: Adjacency, a: string, b: string, seen: set<string>, prev: Previous, dist: Distance)
    requires Sourced(out) && Searching(out, a, seen, prev, dist, []) && b !in seen
    ensures !Linked(out, a, b)
  {
    hide Sourced, Hop, Expanded, Chain;
    forall c ensures !Chain(out, a, b, c) {
      if Chain(out, a, b, c) {
        NearIsSeen(out, a, b, c, seen, prev, dist, []);
      }
    }
  }

  /** The tree path from the root to `v`. */
  ghost function TreePath(prev: Previous, dist: Distance, v: string): seq<CodeEdge>
    requires v in dist
    decreases dist[v]
  {
    if v in prev && prev[v].source in dist && dist[prev[v].source] < dist[v]
    then TreePath(prev, dist, prev[v].source) + [prev[v]]
    else []
  }

  lemma {:induction false} TreePathIsChain(out: Adjacency, a: string, seen: set<string>, prev: Previous,
                                           dist: Distance, v: string)
    requires Tree(out, a, seen, prev, dist) && v in dist
    ensures Chain(out, a, v, TreePath(prev, dist, v)) && |TreePath(prev, dist, v)| == dist[v]
    decreases dist[v]
  {
    if v in prev {
      assert Hop(out, prev, dist, v);
      TreePathIsChain(out, a, seen, prev, dist, prev[v].source);
      var init := TreePath(prev, dist, prev[v].source);
      assert (init + [prev[v]])[..|init|] == init;
    }
  }

  function Reversed(s: seq<CodeEdge>): (r: seq<CodeEdge>)
    ensures |r| == |s|
  {
    if s == [] then [] else Reversed(s[1..]) + [s[0]]
  }

  lemma {:induction false} ReversedSnoc(s: seq<CodeEdge>, e: CodeEdge)
    ensures Reversed(s + [e]) == [e] + Reversed(s)
  {
    if s != [] {
      assert (s + [e])[1..] == s[1..] + [e];
      ReversedSnoc(s[1..], e);
    }
  }

  // ---- the graph object --------------------------------------------------

  class CodeGraph {
    const out: Adjacency
    const into: Adjacency

    constructor (out: Adjacency, into: Adjacency)
      ensures this.out == out && this.into == into
    {
      this.out, this.into := out, into;
    }

    /** The walk back through the predecessors; it ends at the root. */
    method WalkBack(a: string, b: string, prev: Previous, ghost seen: set<string>, ghost dist: Distance)
      returns (chain: seq<CodeEdge>)
      requires Tree(out, a, seen, prev, dist) && b in dist
      ensures chain == TreePath(prev, dist, b)
    {
      chain := [];
      var node := b;
      while node in prev
        invariant node in dist
        invariant TreePath(prev, dist, b) == TreePath(prev, dist, node) + Reversed(chain)
        decreases dist[node]
      {
        assert Hop(out, prev, dist, node);
        ReversedSnoc(chain, prev[node]);
        chain := chain + [prev[node]];
        node := prev[node].source;
      }
      chain := Reversed(chain);
    }

    /** The inner loop for one dequeued node: unseen targets are queued, and the search stops at `b`. */
    method Expand(a: string, b: string, cur: string, seen0: set<string>, prev0: Previous, ghost dist0: Distance,
                  rest0: seq<string>)
      returns (found: bool, seen: set<string>, prev: Previous, ghost dist: Distance, rest: seq<string>)
      requires Sourced(out) && Searching(out, a, seen0, prev0, dist0, [cur] + rest0)
      requires cur in dist0 && b !in seen0 && seen0 <= Vertices(out, a)
      ensures seen0 <= seen <= Vertices(out, a) && (seen == seen0 ==> rest == rest0)
      ensures found ==> Tree(out, a, seen, prev, dist) && b in dist && dist[b] == dist0[cur] + 1
      ensures !found ==> b !in seen && Searching(out, a, seen, prev, dist, rest)
    {
      hide Tree, Layered, Expanded, Sourced;
      found, seen, prev, dist, rest := false, seen0, prev0, dist0, rest0;
      var edges := At(out, cur);
      for i := 0 to |edges|
        invariant Searching(out, a, seen, prev, dist, [cur] + rest)
        invariant b !in seen && seen0 <= seen <= Vertices(out, a) && (seen == seen0 ==> rest == rest0)
        invariant cur in dist && dist[cur] == dist0[cur]
        invariant forall k | 0 <= k < i :: Covered(dist, cur, edges[k])
      {
        var e := edges[i];
        SeenIsDist(out, a, seen, prev, dist);
        if e.target in seen {
          TargetSeen(out, a, seen, prev, dist, cur, rest, e);
          continue;
        }
        Discover(out, a, seen, prev, dist, [cur] + rest, e);
        assert [cur] + rest + [e.target] == [cur] + (rest + [e.target]);
        seen, prev, dist := seen + {e.target}, prev[e.target := e], dist[e.target := dist[cur] + 1];
        if e.target == b {
          found := true;
          return;
        }
        rest := rest + [e.target];
      }
      Dequeue(out, a, seen, prev, dist, cur, rest);
    }

    /** `path`: a chain of out-edges of minimum length; empty exactly when there is nothing to walk. */
    method Path(a: string, b: string) returns (chain: seq<CodeEdge>)
      requires Sourced(out)
      ensures chain == [] <==> a == b || !Linked(out, a, b)
      ensures chain != [] ==> Chain(out, a, b, chain)
      ensures forall c | Chain(out, a, b, c) :: |chain| <= |c|
    {
      hide Searching, Chain, Linked, Hop, Covered, Sourced, TreePath, Vertices;
      if a == b {
        return [];
      }
      var prev: Previous, seen, queue := map[], {a}, [a];
      ghost var dist: Distance := map[a := 0];
      StartSearch(out, a);
      RootIsVertex(out, a);
      while queue != []
        invariant Searching(out, a, seen, prev, dist, queue) && b !in seen
        invariant seen <= Vertices(out, a)
        decreases Vertices(out, a) - seen, |queue|
      {
        NotNear(out, a, b, seen, prev, dist, queue);
        var cur, rest := queue[0], queue[1..];
        assert queue == [cur] + rest;
        var found;
        ghost var seen0 := seen;
        found, seen, prev, dist, rest := Expand(a, b, cur, seen, prev, dist, rest);
        if found {
          chain := WalkBack(a, b, prev, seen, dist);
          TreePathIsChain(out, a, seen, prev, dist, b);
          ChainLinks(out, a, b, chain);
          return;
        }
        assert rest == queue[1..] || seen0 < seen;
        queue := rest;
      }
      Unreached(out, a, b, seen, prev, dist);
      UnlinkedHasNoChain(out, a, b);
      return [];
    }
  }

  function Append(adj: Adjacency, x: string, e: CodeEdge): Adjacency {
    adj[x := At(adj, x) + [e]]
  }

  lemma FromSnoc(links: seq<Link>, e: CodeEdge)
    ensures forall x :: From(links + [Good(e)], x) == if e.source == x then From(links, x) + [e] else From(links, x)
    ensures forall x :: Into(links + [Good(e)], x) == if e.target == x then Into(links, x) + [e] else Into(links, x)
  {
    assert (links + [Good(e)])[..|links|] == links;
  }

  /** `from_dict` on the link list: one malformed record refuses the map; otherwise each edge is filed under its source
      and under its target, in list order. */
  method FromLinks(links: seq<Link>) returns (r: Loaded<CodeGraph>)
    ensures r.Bad? <==> Malformed in links
    ensures r.Fine? ==> forall x :: At(r.value.out, x) == From(links, x) && At(r.value.into, x) == Into(links, x)
    ensures r.Fine? ==> Sourced(r.value.out)
  {
    var out: Adjacency, into: Adjacency := map[], map[];
    for i := 0 to |links|
      invariant Malformed !in links[..i]
      invariant forall x :: At(out, x) == From(links[..i], x)
      invariant forall x :: At(into, x) == Into(links[..i], x)
    {
      assert links[..i + 1] == links[..i] + [links[i]];
      if links[i].Malformed? {
        return Bad;
      }
      var edge := links[i].edge;
      FromSnoc(links[..i], edge);
      out, into := Append(out, edge.source, edge), Append(into, edge.target, edge);
    }
    assert links[..|links|] == links;
    forall x, e | e in At(out, x) ensures e.source == x {
      FromHolds(links, x, e);
    }
    var g := new CodeGraph(out, into);
    return Fine(g);
  }

  /** The two adjacency maps hold the same edges: one is listed under its source exactly when it is listed under its
      target, and exactly when it was a link. */
  lemma AdjacencyMirrors(links: seq<Link>, e: CodeEdge)
    ensures e in From(links, e.source) <==> e in Into(links, e.target)
    ensures e in From(links, e.source) <==> Good(e) in links
  {
    FromHolds(links, e.source, e);
    IntoHolds(links, e.target, e);
  }
}
