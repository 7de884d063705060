/** State interference between functions (audit_agent/planner/sig.py): the edge fold, the in-place propagation of
    callee state to callers over a possibly cyclic call graph, and the interference test.
    A short name of "" stands for an identifier without one. */
module InterferenceGraph {
  import opened Reachability

  datatype EdgeKind = StateRead | StateWrite | Call | ExternalCall | OtherEdge

  datatype Edge = Edge(kind: EdgeKind, source: string, target: string)

  /** State variables per function. */
  type Access = map<string, set<string>>

  // ---- what the edges say ------------------------------------------------

  /** State variables that the edges of one kind attach to function `f`. */
  function Attached(edges: seq<Edge>, kind: EdgeKind, f: string): set<string> {
    set e | e in edges && e.kind == kind && e.target == f && e.source != "" :: e.source
  }

  predicate Calls(edges: seq<Edge>, caller: string, callee: string) {
    Edge(Call, caller, callee) in edges && callee != ""
  }

  predicate CallsOut(edges: seq<Edge>, f: string) {
    exists e :: e in edges && e.kind == ExternalCall && e.source == f
  }

  /** The call graph: exactly the called names of every listed function, in some order. */
  ghost predicate CallGraph(names: set<string>, edges: seq<Edge>, calls: Graph) {
    forall f, c :: c in Succ(calls, f) <==> f in names && Calls(edges, f, c)
  }

  // ---- what propagation must gather --------------------------------------

  /** `v` is attached to `f` itself or to a listed function that `f` calls, however indirectly. */
  ghost predicate Gathered(calls: Graph, own: Access, f: string, v: string) {
    exists g :: g in own && Reaches(calls, f, g) && v in own[g]
  }

  /** Mid-propagation: no function lost anything, and none holds more than it must gather. */
  ghost predicate Between(calls: Graph, own: Access, now: Access) {
    && now.Keys == own.Keys
    && (forall f | f in own :: own[f] <= now[f])
    && (forall f, v | f in now && v in now[f] :: Gathered(calls, own, f, v))
  }

  ghost predicate Settled(calls: Graph, own: Access, now: Access, f: string)
    requires f in now
  {
    forall v :: v in now[f] <==> Gathered(calls, own, f, v)
  }

  lemma StartsBetween(calls: Graph, own: Access)
    ensures Between(calls, own, own)
  {
    forall f, v | f in own && v in own[f] ensures Gathered(calls, own, f, v) {
      ReachesSelf(calls, f);
    }
  }

  /** Adding a reachable callee's current set keeps the bracket, though that callee may itself be half-updated. */
  lemma AbsorbingOne(calls: Graph, own: Access, now: Access, f: string, c: string)
    requires Between(calls, own, now) && f in now && c in now && ReachesOver(calls, f, c)
    ensures Between(calls, own, now[f := now[f] + now[c]])
  {
    hide Reaches, ReachesOver;
    forall v | v in now[c] ensures Gathered(calls, own, f, v) {
      assert Gathered(calls, own, c, v);
      var g :| g in own && Reaches(calls, c, g) && v in own[g];
      ReachesSplit(calls, f, c);
      ReachesTransitive(calls, f, c, g);
    }
  }

  /** What function `c` was given is already among what `f` holds. */
  predicate Covers(own: Access, now: Access, f: string, c: string) {
    c in own && f in now && own[c] <= now[f]
  }

  lemma OwnCovered(calls: Graph, own: Access, now: Access, f: string)
    requires Between(calls, own, now) && f in now
    ensures Covers(own, now, f, f)
  {
  }

  lemma BetweenKeys(calls: Graph, own: Access, now: Access)
    requires Between(calls, own, now)
    ensures own.Keys == now.Keys
  {
  }

  /** Once every callee reachable from `f` was added, `f` is exact. */
  lemma AbsorbedAll(calls: Graph, own: Access, now: Access, f: string)
    requires Between(calls, own, now) && f in now
    requires forall c | c in own && ReachesOver(calls, f, c) :: Covers(own, now, f, c)
    ensures Settled(calls, own, now, f)
  {
    hide Reaches, ReachesOver;
    forall v | Gathered(calls, own, f, v) ensures v in now[f] {
      var g :| g in own && Reaches(calls, f, g) && v in own[g];
      ReachesSplit(calls, f, g);
    }
  }

  /** A bracketed set that was exact stays exact while other entries change. */
  lemma StaysSettled(calls: Graph, own: Access, now: Access, f: string, c: string, done: set<string>)
    requires Between(calls, own, now) && f in now && c in now && ReachesOver(calls, f, c)
    requires done <= now.Keys && forall d | d in done :: Settled(calls, own, now, d)
    ensures forall d | d in done :: Settled(calls, own, now[f := now[f] + now[c]], d)
  {
    hide Gathered;
    var next := now[f := now[f] + now[c]];
    AbsorbingOne(calls, own, now, f, c);
    if f in done {
      forall v | Gathered(calls, own, f, v) ensures v in next[f] {
        assert Settled(calls, own, now, f);
      }
    }
    forall d | d in done ensures Settled(calls, own, next, d) {
      assert Settled(calls, own, now, d);
    }
  }

  /** What `f` holds after absorbing `c`, as maps. */
  lemma AbsorbStep(calls: Graph, own: Access, now: Access, next: Access, f: string, c: string, done: set<string>)
    requires Between(calls, own, now) && f in now && c in now && ReachesOver(calls, f, c)
    requires done <= now.Keys && forall d | d in done :: Settled(calls, own, now, d)
    requires next == now[f := now[f] + now[c]]
    ensures Between(calls, own, next) && Covers(own, next, f, c)
    ensures forall d | d in now :: Covers(own, now, f, d) ==> Covers(own, next, f, d)
    ensures forall d | d in done :: Settled(calls, own, next, d)
  {
    hide Gathered, Settled, ReachesOver;
    AbsorbingOne(calls, own, now, f, c);
    StaysSettled(calls, own, now, f, c, done);
  }

  // ---- interference ------------------------------------------------------

  /** What one function reads and writes. */
  datatype Touched = Touched(readSet: set<string>, writeSet: set<string>)

  /** Two functions touch shared state that one of them writes. */
  predicate Clash(a: Touched, b: Touched) {
    a.writeSet * (b.readSet + b.writeSet) != {} || b.writeSet * (a.readSet + a.writeSet) != {}
  }

  // ---- the graph ---------------------------------------------------------

  class FunctionNode {
    var readSet: set<string>
    var writeSet: set<string>
    var hasExternalCall: bool

    constructor ()
      ensures readSet == {} && writeSet == {} && !hasExternalCall
    {
      readSet, writeSet, hasExternalCall := {}, {}, false;
    }
  }

  class StateInterferenceGraph {
    var functions: map<string, FunctionNode>

    ghost predicate Valid()
      reads this
    {
      forall f, g | f in functions && g in functions && f != g :: functions[f] != functions[g]
    }

    ghost function Reads(): (r: Access)
      reads this, functions.Values
      ensures r.Keys == functions.Keys
    {
      map f | f in functions :: functions[f].readSet
    }

    ghost function Writes(): (r: Access)
      reads this, functions.Values
      ensures r.Keys == functions.Keys
    {
      map f | f in functions :: functions[f].writeSet
    }

    constructor ()
      ensures Valid() && functions == map[]
    {
      functions := map[];
    }

    /** `interferes`. */
    predicate Interferes(a: string, b: string)
      reads this, functions.Values
    {
      && a in functions
      && b in functions
      && Clash(Touched(functions[a].readSet, functions[a].writeSet),
               Touched(functions[b].readSet, functions[b].writeSet))
    }

    /** Node entries of group "function"; a repeated name keeps its first node. */
    method AddNodes(names: seq<string>)
      requires Valid() && functions == map[]
      modifies this
      ensures Valid() && fresh(functions.Values)
      ensures functions.Keys == (set n | n in names && n != "")
      ensures forall f | f in functions :: Reads()[f] == {} && Writes()[f] == {} && !functions[f].hasExternalCall
    {
      for i := 0 to |names|
        invariant Valid() && fresh(functions.Values)
        invariant functions.Keys == (set n | n in names[..i] && n != "")
        invariant forall f | f in functions ::
            functions[f].readSet == {} && functions[f].writeSet == {} && !functions[f].hasExternalCall
      {
        assert names[..i + 1] == names[..i] + [names[i]];
        if names[i] != "" && names[i] !in functions {
          ghost var nodes := functions.Values;
          assert forall f | f in functions :: functions[f] in nodes;
          var node := new FunctionNode();
          assert node !in nodes;
          functions := functions[names[i] := node];
        }
      }
      assert names[..|names|] == names;
    }

    /** One edge: at most one node or call entry changes. */
    method AddEdge(ghost before: seq<Edge>, e: Edge, calls0: Graph) returns (calls: Graph)
      requires Valid() && CallGraph(functions.Keys, before, calls0)
      modifies functions.Values
      ensures CallGraph(functions.Keys, before + [e], calls)
      ensures forall f | f in functions ::
          && functions[f].readSet == old(functions[f].readSet) + Adds(e, StateRead, f)
          && functions[f].writeSet == old(functions[f].writeSet) + Adds(e, StateWrite, f)
          && (functions[f].hasExternalCall <==> old(functions[f].hasExternalCall) || FlagsExternal(e, f))
    {
      OneMoreCall(functions.Keys, before, e, calls0);
      hide CallGraph;
      calls := calls0;
      match e.kind
      case StateRead =>
        if e.target in functions && e.source != "" {
          functions[e.target].readSet := functions[e.target].readSet + {e.source};
        }
      case StateWrite =>
        if e.target in functions && e.source != "" {
          functions[e.target].writeSet := functions[e.target].writeSet + {e.source};
        }
      case Call =>
        if e.source in functions && e.target != "" {
          calls := WithCall(calls, e.source, e.target);
        }
      case ExternalCall =>
        if e.source in functions {
          functions[e.source].hasExternalCall := true;
        }
      case OtherEdge =>
    }

    /** One pass over the edges fills the nodes and collects the calls of listed functions. */
    method AddEdges(edges: seq<Edge>) returns (calls: Graph)
      requires Valid()
      requires forall f | f in functions :: Reads()[f] == {} && Writes()[f] == {} && !functions[f].hasExternalCall
      modifies functions.Values
      ensures forall f | f in functions :: Reads()[f] == Attached(edges, StateRead, f)
      ensures forall f | f in functions :: Writes()[f] == Attached(edges, StateWrite, f)
      ensures forall f | f in functions :: functions[f].hasExternalCall <==> CallsOut(edges, f)
      ensures CallGraph(functions.Keys, edges, calls)
    {
      hide CallGraph, Attached, CallsOut, Adds, FlagsExternal, Valid;
      calls := map[];
      NoEdges(functions.Keys);
      for i := 0 to |edges|
        invariant forall f | f in functions :: functions[f].readSet == Attached(edges[..i], StateRead, f)
        invariant forall f | f in functions :: functions[f].writeSet == Attached(edges[..i], StateWrite, f)
        invariant forall f | f in functions :: functions[f].hasExternalCall <==> CallsOut(edges[..i], f)
        invariant CallGraph(functions.Keys, edges[..i], calls)
      {
        assert edges[..i + 1] == edges[..i] + [edges[i]];
        OneMoreEdge(edges[..i], edges[i]);
        calls := AddEdge(edges[..i], edges[i], calls);
      }
      assert edges[..|edges|] == edges;
    }

    /** Propagation in place, functions and callees taken in any order: a caller adds the current, possibly already
        extended, sets of every function it reaches. */
    method Propagate(calls: Graph)
      requires Valid()
      modifies functions.Values
      ensures forall f | f in functions :: Settled(calls, old(Reads()), Reads(), f)
      ensures forall f | f in functions :: Settled(calls, old(Writes()), Writes(), f)
      ensures forall f | f in functions :: functions[f].hasExternalCall == old(functions[f].hasExternalCall)
    {
      hide Settled, Between, Reaches, ReachesOver, Gathered, Covers;
      ghost var reads0, writes0 := Reads(), Writes();
      StartsBetween(calls, reads0);
      StartsBetween(calls, writes0);
      var todo := functions.Keys;
      while todo != {}
        invariant todo <= functions.Keys
        invariant Between(calls, reads0, Reads()) && Between(calls, writes0, Writes())
        invariant forall f | f in functions.Keys - todo ::
            Settled(calls, reads0, Reads(), f) && Settled(calls, writes0, Writes(), f)
        invariant forall f | f in functions :: functions[f].hasExternalCall == old(functions[f].hasExternalCall)
        decreases todo
      {
        var f :| f in todo;
        var callees := Reachable(calls, f);
        AbsorbCallees(calls, f, functions[f], callees, reads0, writes0, functions.Keys - todo);
        todo := todo - {f};
      }
    }

    /** `node.reads |= other.reads; node.writes |= other.writes` for one reachable callee. */
    method AbsorbOne(calls: Graph, f: string, node: FunctionNode, c: string,
                     ghost reads0: Access, ghost writes0: Access, ghost done: set<string>)
      requires Valid() && f in functions && node == functions[f] && c in functions && c != f && done <= functions.Keys
      requires ReachesOver(calls, f, c)
      requires Between(calls, reads0, Reads()) && Between(calls, writes0, Writes())
      requires forall d | d in done :: Settled(calls, reads0, Reads(), d) && Settled(calls, writes0, Writes(), d)
      modifies node`readSet, node`writeSet
      ensures Between(calls, reads0, Reads()) && Between(calls, writes0, Writes())
      ensures forall d | d in done :: Settled(calls, reads0, Reads(), d) && Settled(calls, writes0, Writes(), d)
      ensures forall d | d in functions :: Covers(reads0, old(Reads()), f, d) ==> Covers(reads0, Reads(), f, d)
      ensures forall d | d in functions :: Covers(writes0, old(Writes()), f, d) ==> Covers(writes0, Writes(), f, d)
      ensures Covers(reads0, Reads(), f, c) && Covers(writes0, Writes(), f, c)
    {
      hide Settled, Between, Reaches, ReachesOver, Gathered, Covers;
      ghost var r, w := Reads(), Writes();
      var other := functions[c];
      node.readSet := node.readSet + other.readSet;
      node.writeSet := node.writeSet + other.writeSet;
      assert Reads() == r[f := r[f] + r[c]];
      assert Writes() == w[f := w[f] + w[c]];
      AbsorbStep(calls, reads0, r, Reads(), f, c, done);
      AbsorbStep(calls, writes0, w, Writes(), f, c, done);
    }

    /** The inner loop of the propagation for one function. */
    method AbsorbCallees(calls: Graph, f: string, node: FunctionNode, callees: set<string>,
                         ghost reads0: Access, ghost writes0: Access, ghost done: set<string>)
      requires Valid() && f in functions && node == functions[f] && done <= functions.Keys
      requires forall c :: c in callees <==> ReachesOver(calls, f, c)
      requires Between(calls, reads0, Reads()) && Between(calls, writes0, Writes())
      requires forall d | d in done :: Settled(calls, reads0, Reads(), d) && Settled(calls, writes0, Writes(), d)
      modifies node`readSet, node`writeSet
      ensures Between(calls, reads0, Reads()) && Between(calls, writes0, Writes())
      ensures forall d | d in done + {f} :: Settled(calls, reads0, Reads(), d) && Settled(calls, writes0, Writes(), d)
    {
      hide Settled, Between, Reaches, ReachesOver, Gathered;
      var todo := callees;
      while todo != {}
        invariant todo <= callees
        invariant Between(calls, reads0, Reads()) && Between(calls, writes0, Writes())
        invariant forall d | d in done :: Settled(calls, reads0, Reads(), d) && Settled(calls, writes0, Writes(), d)
        invariant forall c | c in callees - todo && c in functions :: Covers(reads0, Reads(), f, c)
        invariant forall c | c in callees - todo && c in functions :: Covers(writes0, Writes(), f, c)
        decreases todo
      {
        var c :| c in todo;
        todo := todo - {c};
        if c in functions && c != f {
          AbsorbOne(calls, f, node, c, reads0, writes0, done);
        } else if c == f {
          OwnCovered(calls, reads0, Reads(), f);
          OwnCovered(calls, writes0, Writes(), f);
        }
      }
      BetweenKeys(calls, reads0, Reads());
      BetweenKeys(calls, writes0, Writes());
      AbsorbedAll(calls, reads0, Reads(), f);
      AbsorbedAll(calls, writes0, Writes(), f);
    }
  }

  /** `_reachable`: everything that `start` calls, directly or not. */
  method Reachable(calls: Graph, start: string) returns (seen: set<string>)
    ensures forall c :: c in seen <==> ReachesOver(calls, start, c)
  {
    hide Walking, Reaches, ReachesOver, ReachedFrom, Universe;
    ghost var starts := Succ(calls, start);
    var stack := Succ(calls, start);
    seen := {};
    WalkStarts(calls, starts);
    while stack != []
      invariant Walking(calls, starts, seen, stack)
      decreases Universe(calls, starts) - seen, |stack|
    {
      var next, rest := stack[|stack| - 1], stack[..|stack| - 1];
      assert stack == rest + [next];
      if next in seen {
        WalkSkips(calls, starts, seen, rest, next);
        stack := rest;
        continue;
      }
      WalkVisits(calls, starts, seen, rest, next);
      seen, stack := seen + {next}, rest + Succ(calls, next);
    }
    WalkEnds(calls, starts, seen);
    forall c ensures c in seen <==> ReachesOver(calls, start, c) {
      StartsAreSuccessors(calls, start, c);
    }
  }

  /** `calls.setdefault(caller, set()).add(callee)`, the set listed without repetition. */
  function WithCall(calls: Graph, caller: string, callee: string): Graph {
    if callee in Succ(calls, caller) then calls else calls[caller := Succ(calls, caller) + [callee]]
  }

  /** What one edge attaches to `f`. */
  function Adds(e: Edge, kind: EdgeKind, f: string): set<string> {
    if e.kind == kind && e.target == f && e.source != "" then {e.source} else {}
  }

  predicate FlagsExternal(e: Edge, f: string) {
    e.kind == ExternalCall && e.source == f
  }

  lemma NoEdges(names: set<string>)
    ensures forall f, kind :: Attached([], kind, f) == {}
    ensures forall f :: !CallsOut([], f)
    ensures CallGraph(names, [], map[])
  {
  }

  lemma OneMoreEdge(edges: seq<Edge>, e: Edge)
    ensures forall f, kind :: Attached(edges + [e], kind, f) == Attached(edges, kind, f) + Adds(e, kind, f)
    ensures forall f :: CallsOut(edges + [e], f) <==> CallsOut(edges, f) || FlagsExternal(e, f)
  {
    var all := edges + [e];
    assert forall x :: x in all <==> x in edges || x == e;
  }

  lemma WithCallSucc(calls: Graph, caller: string, callee: string, f: string, c: string)
    ensures c in Succ(WithCall(calls, caller, callee), f) <==> c in Succ(calls, f) || (f == caller && c == callee)
  {
  }

  lemma OneMoreCall(names: set<string>, edges: seq<Edge>, e: Edge, calls: Graph)
    requires CallGraph(names, edges, calls)
    ensures e.kind == Call && e.source in names && e.target != "" ==>
              CallGraph(names, edges + [e], WithCall(calls, e.source, e.target))
    ensures !(e.kind == Call && e.source in names && e.target != "") ==> CallGraph(names, edges + [e], calls)
  {
    forall f, c ensures Calls(edges + [e], f, c) <==> Calls(edges, f, c) || (e == Edge(Call, f, c) && c != "") {
    }
    forall f, c
      ensures c in Succ(WithCall(calls, e.source, e.target), f)
              <==> c in Succ(calls, f) || (f == e.source && c == e.target) {
      WithCallSucc(calls, e.source, e.target, f, c);
    }
    hide Succ, WithCall, Calls;
  }

  /** The whole build: each function ends with exactly the state that it or anything it reaches was given, and
      interference and re-entrancy are read off those sets. */
  method Build(names: seq<string>, edges: seq<Edge>) returns (sig: StateInterferenceGraph)
    ensures fresh(sig) && sig.Valid() && sig.functions.Keys == (set n | n in names && n != "")
    ensures forall f, v | f in sig.functions ::
        v in sig.functions[f].readSet <==> Touches(sig.functions.Keys, edges, StateRead, f, v)
    ensures forall f, v | f in sig.functions ::
        v in sig.functions[f].writeSet <==> Touches(sig.functions.Keys, edges, StateWrite, f, v)
    ensures forall f | f in sig.functions :: sig.functions[f].hasExternalCall <==> CallsOut(edges, f)
    ensures forall a, b :: sig.Interferes(a, b) <==> Interfering(sig.functions.Keys, edges, a, b)
  {
    hide Settled, CallGraph, Touches, Attached, CallsOut, Interfering, StateInterferenceGraph.Interferes, Reaches;
    sig := new StateInterferenceGraph();
    sig.AddNodes(names);
    var calls := sig.AddEdges(edges);
    ghost var r, w := sig.Reads(), sig.Writes();
    sig.Propagate(calls);
    SettledTouches(sig.functions.Keys, edges, calls, StateRead, r, sig.Reads());
    SettledTouches(sig.functions.Keys, edges, calls, StateWrite, w, sig.Writes());
    HoldsSo(sig, edges);
  }

  /** A call chain between listed functions, said of the edge list alone: the last name may be anything called. */
  ghost predicate CallChain(names: set<string>, edges: seq<Edge>, p: seq<string>) {
    p != [] && forall k | 0 <= k < |p| - 1 :: p[k] in names && Calls(edges, p[k], p[k + 1])
  }

  /** Some chain of calls from `f` ends in a listed function that an edge attaches `v` to. */
  ghost predicate Touches(names: set<string>, edges: seq<Edge>, kind: EdgeKind, f: string, v: string) {
    exists p :: CallChain(names, edges, p) && p[0] == f && p[|p| - 1] in names
                && v in Attached(edges, kind, p[|p| - 1])
  }

  lemma ChainsArePaths(names: set<string>, edges: seq<Edge>, calls: Graph, p: seq<string>)
    requires CallGraph(names, edges, calls)
    ensures IsPath(calls, p) <==> CallChain(names, edges, p)
  {
    hide Succ, Calls;
    if IsPath(calls, p) {
      forall k | 0 <= k < |p| - 1 ensures p[k] in names && Calls(edges, p[k], p[k + 1]) {
        assert p[k + 1] in Succ(calls, p[k]);
      }
    }
    if CallChain(names, edges, p) {
      forall k | 0 <= k < |p| - 1 ensures p[k + 1] in Succ(calls, p[k]) {
        assert p[k] in names && Calls(edges, p[k], p[k + 1]);
      }
    }
  }

  lemma SettledTouches(names: set<string>, edges: seq<Edge>, calls: Graph, kind: EdgeKind, own: Access, now: Access)
    requires CallGraph(names, edges, calls) && own.Keys == now.Keys == names
    requires forall f | f in names :: own[f] == Attached(edges, kind, f) && Settled(calls, own, now, f)
    ensures forall f, v | f in now :: v in now[f] <==> Touches(names, edges, kind, f, v)
  {
    hide Attached;
    forall p ensures IsPath(calls, p) <==> CallChain(names, edges, p) {
      ChainsArePaths(names, edges, calls, p);
    }
    hide CallGraph, CallChain, IsPath;
    forall f, v | f in now ensures v in now[f] <==> Touches(names, edges, kind, f, v) {
      assert Settled(calls, own, now, f);
      if Gathered(calls, own, f, v) {
        var g :| g in own && Reaches(calls, f, g) && v in own[g];
        var p :| IsPath(calls, p) && p[0] == f && p[|p| - 1] == g;
      }
      if Touches(names, edges, kind, f, v) {
        var p :| CallChain(names, edges, p) && p[0] == f && p[|p| - 1] in names
                 && v in Attached(edges, kind, p[|p| - 1]);
        assert Reaches(calls, f, p[|p| - 1]);
      }
    }
  }

  /** The graph says of `f` what the edge list does: it touches what its call chains reach. */
  ghost predicate Holds(sig: StateInterferenceGraph, edges: seq<Edge>, f: string)
    requires f in sig.functions
    reads sig, sig.functions.Values
  {
    && (forall v :: v in sig.functions[f].readSet <==> Touches(sig.functions.Keys, edges, StateRead, f, v))
    && (forall v :: v in sig.functions[f].writeSet <==> Touches(sig.functions.Keys, edges, StateWrite, f, v))
  }

  /** On such a graph two functions interfere exactly when both are listed and some state variable is written by one,
      through whatever calls, and read or written by the other; so the relation is symmetric. */
  lemma InterferesMeans(sig: StateInterferenceGraph, edges: seq<Edge>, a: string, b: string)
    requires forall f | f in sig.functions :: Holds(sig, edges, f)
    ensures sig.Interferes(a, b) <==> Interfering(sig.functions.Keys, edges, a, b)
    ensures sig.Interferes(a, b) <==> sig.Interferes(b, a)
  {
    hide Touches;
    var names := sig.functions.Keys;
    if a in names && b in names {
      assert Holds(sig, edges, a) && Holds(sig, edges, b);
      var ta := Touched(sig.functions[a].readSet, sig.functions[a].writeSet);
      var tb := Touched(sig.functions[b].readSet, sig.functions[b].writeSet);
      if Clash(ta, tb) {
        var v :| v in ta.writeSet * (tb.readSet + tb.writeSet) || v in tb.writeSet * (ta.readSet + ta.writeSet);
        assert SharedWrite(names, edges, a, b, v) || SharedWrite(names, edges, b, a, v);
      }
      if v :| SharedWrite(names, edges, a, b, v) || SharedWrite(names, edges, b, a, v) {
        assert v in ta.writeSet * (tb.readSet + tb.writeSet) || v in tb.writeSet * (ta.readSet + ta.writeSet);
      }
    }
  }

  lemma HoldsSo(sig: StateInterferenceGraph, edges: seq<Edge>)
    requires forall f, v | f in sig.functions ::
        v in sig.functions[f].readSet <==> Touches(sig.functions.Keys, edges, StateRead, f, v)
    requires forall f, v | f in sig.functions ::
        v in sig.functions[f].writeSet <==> Touches(sig.functions.Keys, edges, StateWrite, f, v)
    ensures forall a, b :: sig.Interferes(a, b) <==> Interfering(sig.functions.Keys, edges, a, b)
  {
    hide Touches, Interfering, StateInterferenceGraph.Interferes;
    forall a, b ensures sig.Interferes(a, b) <==> Interfering(sig.functions.Keys, edges, a, b) {
      InterferesMeans(sig, edges, a, b);
    }
  }

  /** Said of the edge list alone. */
  ghost predicate Interfering(names: set<string>, edges: seq<Edge>, a: string, b: string) {
    && a in names && b in names
    && exists v :: SharedWrite(names, edges, a, b, v) || SharedWrite(names, edges, b, a, v)
  }

  ghost predicate SharedWrite(names: set<string>, edges: seq<Edge>, writer: string, other: string, v: string) {
    && Touches(names, edges, StateWrite, writer, v)
    && (Touches(names, edges, StateRead, other, v) || Touches(names, edges, StateWrite, other, v))
  }
}
