/** The pair table and the three-dimensional Pareto front of the capability screen
    (`build_pairs`, `_cap_relation`, `pareto_nondominated` in scripts/capability_screen.py). */
module ParetoFront {
  import opened Options
  import opened Quantile
  import Text
  import Sorting

  /** One candidate on one class; the interval is present for screen survivors only. */
  datatype Row = Row(candidate: string, cls: string, interval: Option<Interval>)
  datatype Cost = Cost(usdPerCase: real, seconds: real)
  type Costs = map<(string, string), Cost>

  datatype Pair = Pair(cls: string, a: string, b: string, resolved: bool, dominant: Option<string>)

  function PairOf(x: Row, y: Row): Pair
    requires x.interval.Some? && y.interval.Some?
  {
    var i, j := x.interval.value, y.interval.value;
    Pair(x.cls, x.candidate, y.candidate, Resolved(i, j),
         if !Resolved(i, j) then None else if Dominates(i, j) then Some(x.candidate) else Some(y.candidate))
  }

  /** The scored rows of one class, in table order. */
  function CellsOf(rows: seq<Row>, cls: string): (cells: seq<Row>)
    ensures forall c :: c in cells <==> c in rows && c.cls == cls && c.interval.Some?
  {
    if rows == [] then []
    else
      var n := |rows| - 1;
      assert rows == rows[..n] + [rows[n]];
      CellsOf(rows[..n], cls) + (if rows[n].cls == cls && rows[n].interval.Some? then [rows[n]] else [])
  }

  function Sorted(rows: seq<Row>, cls: string): (cells: seq<Row>)
    ensures forall c :: c in cells <==> c in rows && c.cls == cls && c.interval.Some?
  {
    Sorting.SortByMembers(CellsOf(rows, cls), CandidateOf);
    Sorting.SortBy(CellsOf(rows, cls), CandidateOf)
  }

  function CandidateOf(r: Row): string { r.candidate }

  predicate Apart(cells: seq<Row>) {
    forall i, j | 0 <= i < j < |cells| :: CandidateOf(cells[i]) != CandidateOf(cells[j])
  }

  lemma {:induction false} CellsApart(rows: seq<Row>, cls: string)
    requires UniqueCells(rows)
    ensures Apart(CellsOf(rows, cls))
  {
    if rows != [] {
      var n := |rows| - 1;
      CellsApart(rows[..n], cls);
      forall c | c in CellsOf(rows[..n], cls) ensures KeyOf(c) != KeyOf(rows[n]) {
      }
    }
  }

  lemma SortedApart(rows: seq<Row>, cls: string)
    requires UniqueCells(rows)
    ensures Apart(Sorted(rows, cls))
  {
    hide UniqueCells;
    CellsApart(rows, cls);
    Sorting.SortByDistinct(CellsOf(rows, cls), CandidateOf);
  }

  /** The two entries are about the same two candidates of the same class. */
  predicate SameNames(p: Pair, q: Pair) {
    p.cls == q.cls && {p.a, p.b} == {q.a, q.b}
  }

  predicate NamedOnce(pairs: seq<Pair>) {
    forall x, y | 0 <= x < y < |pairs| :: !SameNames(pairs[x], pairs[y])
  }

  /** `p` is the pair of two rows of one class, taken in candidate order. */
  ghost predicate InTable(cells: seq<Row>, p: Pair)
    requires forall c | c in cells :: c.interval.Some?
  {
    exists i, j :: 0 <= i < j < |cells| && p == PairOf(cells[i], cells[j])
  }

  ghost predicate AnyResolved(cells: seq<Row>)
    requires forall c | c in cells :: c.interval.Some?
  {
    exists i, j :: 0 <= i < j < |cells| && PairOf(cells[i], cells[j]).resolved
  }

  /** `p` is the pair of cells `x < y` with `x` before row `i`, or in row `i` with `y` before `j`. */
  ghost predicate Seen(cells: seq<Row>, i: nat, j: nat, p: Pair)
    requires forall c | c in cells :: c.interval.Some?
  {
    exists x, y :: 0 <= x < y < |cells| && (x < i || (x == i && y < j)) && p == PairOf(cells[x], cells[y])
  }

  lemma SeenOneMore(cells: seq<Row>, i: nat, j: nat, p: Pair)
    requires forall c | c in cells :: c.interval.Some?
    requires i < j < |cells|
    ensures Seen(cells, i, j + 1, p) <==> Seen(cells, i, j, p) || p == PairOf(cells[i], cells[j])
  {
    hide PairOf;
  }

  lemma SeenRow(cells: seq<Row>, i: nat, p: Pair)
    requires forall c | c in cells :: c.interval.Some?
    requires i < |cells|
    ensures Seen(cells, i, |cells|, p) <==> Seen(cells, i + 1, i + 2, p)
  {
    hide PairOf;
    if Seen(cells, i, |cells|, p) {
      var x, y :| 0 <= x < y < |cells| && (x < i || (x == i && y < |cells|)) && p == PairOf(cells[x], cells[y]);
      assert x < i + 1;
    }
  }

  lemma SeenAll(cells: seq<Row>, n: nat, p: Pair)
    requires forall c | c in cells :: c.interval.Some?
    requires n == |cells|
    ensures Seen(cells, n, n + 1, p) <==> InTable(cells, p)
    ensures !Seen(cells, 0, 1, p)
  {
    hide PairOf;
    if InTable(cells, p) {
      var x, y :| 0 <= x < y < |cells| && p == PairOf(cells[x], cells[y]);
      assert x < n;
    }
  }

  lemma SeenNext(cells: seq<Row>, i: nat, j: nat, pairs: seq<Pair>)
    requires forall c | c in cells :: c.interval.Some?
    requires i < j < |cells| && forall p :: p in pairs <==> Seen(cells, i, j, p)
    ensures forall p :: p in pairs + [PairOf(cells[i], cells[j])] <==> Seen(cells, i, j + 1, p)
  {
    hide Seen, PairOf;
    var more := pairs + [PairOf(cells[i], cells[j])];
    forall p ensures p in more <==> Seen(cells, i, j + 1, p) {
      SeenOneMore(cells, i, j, p);
      assert p in more <==> p in pairs || p == PairOf(cells[i], cells[j]);
    }
  }

  lemma SeenRows(cells: seq<Row>, i: nat)
    requires forall c | c in cells :: c.interval.Some?
    requires i < |cells|
    ensures forall p :: Seen(cells, i, |cells|, p) <==> Seen(cells, i + 1, i + 2, p)
  {
    hide Seen;
    forall p ensures Seen(cells, i, |cells|, p) <==> Seen(cells, i + 1, i + 2, p) {
      SeenRow(cells, i, p);
    }
  }

  lemma SeenBounds(cells: seq<Row>)
    requires forall c | c in cells :: c.interval.Some?
    ensures forall p :: Seen(cells, |cells|, |cells| + 1, p) <==> InTable(cells, p)
    ensures forall p :: !Seen(cells, 0, 1, p)
  {
    hide Seen;
    forall p ensures (Seen(cells, |cells|, |cells| + 1, p) <==> InTable(cells, p)) && !Seen(cells, 0, 1, p) {
      SeenAll(cells, |cells|, p);
    }
  }

  lemma FreshPair(cells: seq<Row>, i: nat, j: nat, pairs: seq<Pair>)
    requires forall c | c in cells :: c.interval.Some?
    requires i < j < |cells| && forall p :: p in pairs <==> Seen(cells, i, j, p)
    requires Apart(cells) && NamedOnce(pairs)
    ensures NamedOnce(pairs + [PairOf(cells[i], cells[j])])
  {
    hide Seen, NamedOnce;
    var pair := PairOf(cells[i], cells[j]);
    forall p | p in pairs ensures !SameNames(p, pair) {
      NotSeenYet(cells, i, j, p);
    }
    NamesOfOne(pair);
    NamesGrow(pairs, [pair]);
  }

  lemma NotSeenYet(cells: seq<Row>, i: nat, j: nat, p: Pair)
    requires forall c | c in cells :: c.interval.Some?
    requires i < j < |cells| && Seen(cells, i, j, p) && Apart(cells)
    ensures !SameNames(p, PairOf(cells[i], cells[j]))
  {
    var x, y :| 0 <= x < y < |cells| && (x < i || (x == i && y < j)) && p == PairOf(cells[x], cells[y]);
    assert p.a in {p.a, p.b} && p.b in {p.a, p.b};
  }

  lemma NamesOfOne(pair: Pair)
    ensures NamedOnce([pair])
  {
  }

  lemma NoNames()
    ensures NamedOnce([])
  {
  }

  lemma NamesGrow(pairs: seq<Pair>, more: seq<Pair>)
    requires NamedOnce(pairs) && NamedOnce(more)
    requires forall p, q | p in pairs && q in more :: !SameNames(p, q)
    ensures NamedOnce(pairs + more)
  {
    hide SameNames;
    var all, n := pairs + more, |pairs|;
    forall x, y | 0 <= x < y < |all| ensures !SameNames(all[x], all[y]) {
      if y >= n {
        assert all[y] == more[y - n];
        if x >= n {
          assert all[x] == more[x - n];
        } else {
          assert all[x] in pairs && all[y] in more;
        }
      }
    }
  }

  predicate SomeResolved(pairs: seq<Pair>) {
    exists p :: p in pairs && p.resolved
  }

  lemma NoneResolved()
    ensures !SomeResolved([])
  {
  }

  lemma OneMorePair(pairs: seq<Pair>, pair: Pair)
    ensures SomeResolved(pairs + [pair]) <==> SomeResolved(pairs) || pair.resolved
  {
    assert forall p :: p in pairs + [pair] <==> p in pairs || p == pair;
  }

  /** The nested loops of `build_pairs` over the sorted cells of one class. */
  method ClassPairs(cells: seq<Row>) returns (pairs: seq<Pair>, separated: nat)
    requires forall c | c in cells :: c.interval.Some?
    ensures forall p :: p in pairs <==> InTable(cells, p)
    ensures separated > 0 <==> SomeResolved(pairs)
    ensures Apart(cells) ==> NamedOnce(pairs)
  {
    hide Seen, InTable, SomeResolved, Apart, SameNames;
    NoneResolved();
    pairs, separated := [], 0;
    SeenBounds(cells);
    for i := 0 to |cells|
      invariant forall p :: p in pairs <==> Seen(cells, i, i + 1, p)
      invariant separated > 0 <==> SomeResolved(pairs)
      invariant Apart(cells) ==> NamedOnce(pairs)
    {
      SeenRows(cells, i);
      for j := i + 1 to |cells|
        invariant forall p :: p in pairs <==> Seen(cells, i, j, p)
        invariant separated > 0 <==> SomeResolved(pairs)
        invariant Apart(cells) ==> NamedOnce(pairs)
      {
        var a, b := cells[i], cells[j];
        var resolved := Resolved(a.interval.value, b.interval.value);
        var dominant: Option<string> := None;
        if resolved {
          separated := separated + 1;
          dominant := if Dominates(a.interval.value, b.interval.value) then Some(a.candidate) else Some(b.candidate);
        }
        var pair := Pair(a.cls, a.candidate, b.candidate, resolved, dominant);
        assert pair == PairOf(a, b);
        SeenNext(cells, i, j, pairs);
        if Apart(cells) {
          FreshPair(cells, i, j, pairs);
        }
        OneMorePair(pairs, pair);
        pairs := pairs + [pair];
      }
    }
  }

  predicate ScoredClass(rows: seq<Row>, n: nat, cls: string)
    requires n <= |rows|
  {
    exists k | 0 <= k < n :: rows[k].cls == cls && rows[k].interval.Some?
  }

  /** `build_pairs`: every pair of survivors of every class, once where no candidate has two rows in a class, and the
      classes whose pairs all overlap. */
  method BuildPairs(rows: seq<Row>) returns (pairs: seq<Pair>, underpowered: seq<string>)
    ensures forall p :: p in pairs <==> InTable(Sorted(rows, p.cls), p)
    ensures UniqueCells(rows) ==> NamedOnce(pairs)
    ensures forall c :: c in underpowered <==> |Sorted(rows, c)| >= 2 && !AnyResolved(Sorted(rows, c))
  {
    hide Sorted, InTable, AnyResolved, NamedOnce, UniqueCells;
    var order := ScoredClasses(rows);
    pairs, underpowered := [], [];
    NoNames();
    for k := 0 to |order|
      invariant UniqueCells(rows) ==> NamedOnce(pairs)
      invariant forall p :: p in pairs <==> p.cls in order[..k] && InTable(Sorted(rows, p.cls), p)
      invariant forall c :: c in underpowered <==>
        c in order[..k] && |Sorted(rows, c)| >= 2 && !AnyResolved(Sorted(rows, c))
    {
      var cls := order[k];
      assert order[..k + 1] == order[..k] + [cls];
      var cells := Sorted(rows, cls);
      var more, separated := ClassPairs(cells);
      PairsNameTheirClass(rows, cls);
      TableResolved(cells, more);
      if UniqueCells(rows) {
        SortedApart(rows, cls);
        NamesGrow(pairs, more);
      }
      pairs := pairs + more;
      if |cells| >= 2 && separated == 0 {
        underpowered := underpowered + [cls];
      }
    }
    assert order[..|order|] == order;
    forall c | c !in order ensures Sorted(rows, c) == [] {
      Unscored(rows, c);
    }
    EmptyTable();
  }

  lemma EmptyTable()
    ensures forall p: Pair :: !InTable([], p)
  {
  }

  lemma TableResolved(cells: seq<Row>, pairs: seq<Pair>)
    requires (forall c | c in cells :: c.interval.Some?) && forall p :: p in pairs <==> InTable(cells, p)
    ensures SomeResolved(pairs) <==> AnyResolved(cells)
  {
    hide PairOf;
    if i, j :| 0 <= i < j < |cells| && PairOf(cells[i], cells[j]).resolved {
      assert InTable(cells, PairOf(cells[i], cells[j]));
    }
  }

  /** The classes with a scored row, in order. */
  method ScoredClasses(rows: seq<Row>) returns (order: seq<string>)
    ensures forall c :: c in order <==> ScoredClass(rows, |rows|, c)
    ensures forall x, y | 0 <= x < y < |order| :: order[x] != order[y]
  {
    var classes: seq<string> := [];
    for k := 0 to |rows|
      invariant forall c :: c in classes <==> ScoredClass(rows, k, c)
      invariant forall x, y | 0 <= x < y < |classes| :: classes[x] != classes[y]
    {
      if rows[k].interval.Some? && rows[k].cls !in classes {
        classes := classes + [rows[k].cls];
      }
    }
    order := Sorting.SortBy(classes, ClassName);
    Sorting.SortByMembers(classes, ClassName);
    Sorting.SortByDistinct(classes, ClassName);
  }

  function ClassName(c: string): string { c }

  lemma PairsNameTheirClass(rows: seq<Row>, cls: string)
    ensures forall p :: InTable(Sorted(rows, cls), p) ==> p.cls == cls
  {
    var cells := Sorted(rows, cls);
    forall p | InTable(cells, p) ensures p.cls == cls {
      var i, j :| 0 <= i < j < |cells| && p == PairOf(cells[i], cells[j]);
      assert cells[i] in cells;
    }
  }

  lemma {:induction false} Unscored(rows: seq<Row>, cls: string)
    requires !ScoredClass(rows, |rows|, cls)
    ensures CellsOf(rows, cls) == [] && Sorted(rows, cls) == []
  {
    if rows != [] {
      Unscored(rows[..|rows| - 1], cls);
    }
  }

  // ---- the front ---------------------------------------------------------

  datatype Relation = First | Second | Incomparable

  /** `_cap_relation`: the first resolved pair of the two candidates decides. */
  function CapRelation(cls: string, a: string, b: string, pairs: seq<Pair>): Relation {
    if pairs == [] then Incomparable
    else
      var p := pairs[0];
      if p.cls == cls && p.resolved && {p.a, p.b} == {a, b} then (if p.dominant == Some(a) then First else Second)
      else CapRelation(cls, a, b, pairs[1..])
  }

  function KeyOf(r: Row): (string, string) {
    (r.candidate, r.cls)
  }

  /** The inner test of `pareto_nondominated` for cell `i` against cell `j`. */
  predicate BeatenBy(cells: seq<Row>, costs: Costs, pairs: seq<Pair>, i: nat, j: nat)
    requires i < |cells| && j < |cells|
  {
    var a, b := cells[i], cells[j];
    && j != i && b.cls == a.cls && KeyOf(a) in costs && KeyOf(b) in costs
    && CapRelation(a.cls, a.candidate, b.candidate, pairs) == Second
    && costs[KeyOf(b)].usdPerCase <= costs[KeyOf(a)].usdPerCase && costs[KeyOf(b)].seconds <= costs[KeyOf(a)].seconds
  }

  predicate OnFront(cells: seq<Row>, costs: Costs, pairs: seq<Pair>, i: nat)
    requires i < |cells|
  {
    forall j | 0 <= j < |cells| :: !BeatenBy(cells, costs, pairs, i, j)
  }

  function Scored(rows: seq<Row>): (cells: seq<Row>)
    ensures forall c :: c in cells <==> c in rows && c.interval.Some?
  {
    if rows == [] then []
    else
      var n := |rows| - 1;
      assert rows == rows[..n] + [rows[n]];
      Scored(rows[..n]) + (if rows[n].interval.Some? then [rows[n]] else [])
  }

  function FrontKeys(cells: seq<Row>, costs: Costs, pairs: seq<Pair>, n: nat): seq<(string, string)>
    requires n <= |cells|
  {
    if n == 0 then []
    else FrontKeys(cells, costs, pairs, n - 1)
         + (if OnFront(cells, costs, pairs, n - 1) then [KeyOf(cells[n - 1])] else [])
  }

  /** `pareto_nondominated`, the scored rows taken in order. */
  method ParetoNondominated(rows: seq<Row>, costs: Costs, pairs: seq<Pair>) returns (nondom: seq<(string, string)>)
    ensures nondom == FrontKeys(Scored(rows), costs, pairs, |Scored(rows)|)
  {
    var cells := Scored(rows);
    nondom := [];
    for i := 0 to |cells|
      invariant nondom == FrontKeys(cells, costs, pairs, i)
    {
      var a, dominated, j := cells[i], false, 0;
      while j < |cells|
        invariant 0 <= j <= |cells|
        invariant !dominated && forall k | 0 <= k < j :: !BeatenBy(cells, costs, pairs, i, k)
      {
        var b := cells[j];
        if j != i && b.cls == a.cls && KeyOf(a) in costs && KeyOf(b) in costs {
          var ca, cb := costs[KeyOf(a)], costs[KeyOf(b)];
          if CapRelation(a.cls, a.candidate, b.candidate, pairs) == Second
             && cb.usdPerCase <= ca.usdPerCase && cb.seconds <= ca.seconds {
            assert BeatenBy(cells, costs, pairs, i, j);
            dominated := true;
            break;
          }
        }
        j := j + 1;
      }
      if !dominated {
        nondom := nondom + [KeyOf(a)];
      }
    }
  }

  // ---- what the front means ----------------------------------------------

  /** No candidate appears twice in a class. */
  predicate UniqueCells(rows: seq<Row>) {
    forall i, j | 0 <= i < j < |rows| :: KeyOf(rows[i]) != KeyOf(rows[j])
  }

  predicate WellOrdered(rows: seq<Row>) {
    forall r | r in rows :: r.interval.Some? ==> Ordered(r.interval.value)
  }

  /** `b` is strictly better on capability and no worse on cost and latency. */
  predicate Better(costs: Costs, b: Row, a: Row) {
    && b.cls == a.cls && a.interval.Some? && b.interval.Some? && KeyOf(a) in costs && KeyOf(b) in costs
    && Dominates(b.interval.value, a.interval.value)
    && costs[KeyOf(b)].usdPerCase <= costs[KeyOf(a)].usdPerCase && costs[KeyOf(b)].seconds <= costs[KeyOf(a)].seconds
  }

  /** The pair table describes these rows: it holds exactly the pairs of survivors, class by class. */
  ghost predicate IsTable(rows: seq<Row>, pairs: seq<Pair>) {
    forall p :: p in pairs <==> InTable(Sorted(rows, p.cls), p)
  }

  /** Three-dimensional dominance is a strict partial order on well-ordered intervals. */
  lemma BetterIsStrictOrder(rows: seq<Row>, costs: Costs, a: Row, b: Row, c: Row)
    requires WellOrdered(rows) && a in rows && b in rows && c in rows
    ensures !Better(costs, a, a)
    ensures Better(costs, c, b) && Better(costs, b, a) ==> Better(costs, c, a)
  {
  }

  lemma SameCell(rows: seq<Row>, x: Row, y: Row)
    requires UniqueCells(rows) && x in rows && y in rows && KeyOf(x) == KeyOf(y)
    ensures x == y
  {
    var i :| 0 <= i < |rows| && rows[i] == x;
    var j :| 0 <= j < |rows| && rows[j] == y;
    assert i == j;
  }

  /** What a matching table entry says of the two rows it is about. */
  lemma EntryDecides(rows: seq<Row>, pairs: seq<Pair>, p: Pair, a: Row, b: Row)
    requires UniqueCells(rows) && WellOrdered(rows) && IsTable(rows, pairs)
    requires a in rows && b in rows && a.cls == b.cls && a.candidate != b.candidate
    requires a.interval.Some? && b.interval.Some?
    requires p in pairs && p.cls == a.cls && {p.a, p.b} == {a.candidate, b.candidate}
    ensures p.resolved <==> Resolved(a.interval.value, b.interval.value)
    ensures p.resolved ==> (p.dominant == Some(a.candidate) <==> Dominates(a.interval.value, b.interval.value))
  {
    hide Resolved, Dominates, Sorted;
    var cells := Sorted(rows, p.cls);
    var x, y := EntryRows(cells, p);
    SamePair(p.a, p.b, a.candidate, b.candidate);
    if p.a == a.candidate {
      SameCell(rows, x, a);
      SameCell(rows, y, b);
    } else {
      SameCell(rows, x, b);
      SameCell(rows, y, a);
    }
    DominatesOneWay(a.interval.value, b.interval.value);
  }

  lemma EntryRows(cells: seq<Row>, p: Pair) returns (x: Row, y: Row)
    requires (forall c | c in cells :: c.interval.Some?) && InTable(cells, p)
    ensures x in cells && y in cells && p == PairOf(x, y)
  {
    hide PairOf;
    var i, j :| 0 <= i < j < |cells| && p == PairOf(cells[i], cells[j]);
    x, y := cells[i], cells[j];
  }

  lemma DominatesOneWay(i: Interval, j: Interval)
    requires Ordered(i) && Ordered(j)
    ensures Resolved(i, j) <==> Dominates(i, j) || Dominates(j, i)
    ensures Resolved(i, j) <==> Resolved(j, i)
    ensures !(Dominates(i, j) && Dominates(j, i))
  {
  }

  lemma SamePair<T>(x: T, y: T, a: T, b: T)
    requires {x, y} == {a, b}
    ensures (x == a && y == b) || (x == b && y == a)
  {
    assert x in {a, b} && y in {a, b} && a in {x, y} && b in {x, y};
  }

  /** Two survivors of one class have an entry in the table. */
  lemma EntryExists(rows: seq<Row>, pairs: seq<Pair>, a: Row, b: Row) returns (p: Pair)
    requires IsTable(rows, pairs) && a in rows && b in rows && a.cls == b.cls && a != b
    requires a.interval.Some? && b.interval.Some?
    ensures p in pairs && p.cls == a.cls && {p.a, p.b} == {a.candidate, b.candidate}
  {
    hide Sorted, PairOf, InTable;
    var cells := Sorted(rows, a.cls);
    var i, j := IndexOf(cells, a), IndexOf(cells, b);
    if i < j {
      p := PairOf(a, b);
      PairInTable(cells, i, j);
    } else {
      p := PairOf(b, a);
      PairInTable(cells, j, i);
    }
  }

  ghost function IndexOf<T>(xs: seq<T>, x: T): (i: nat)
    requires x in xs
    ensures i < |xs| && xs[i] == x
  {
    var i :| 0 <= i < |xs| && xs[i] == x;
    i
  }

  lemma PairInTable(cells: seq<Row>, i: nat, j: nat)
    requires (forall c | c in cells :: c.interval.Some?) && i < j < |cells|
    ensures InTable(cells, PairOf(cells[i], cells[j]))
    ensures var p := PairOf(cells[i], cells[j]);
      p.cls == cells[i].cls && p.a == cells[i].candidate && p.b == cells[j].candidate
  {
  }

  lemma {:induction false} RelationFromEntries(cls: string, a: string, b: string, pairs: seq<Pair>, aWins: bool,
                                              bWins: bool)
    requires !(aWins && bWins)
    requires forall p | p in pairs && p.cls == cls && {p.a, p.b} == {a, b} ::
      (p.resolved <==> aWins || bWins) && (p.resolved ==> (p.dominant == Some(a) <==> aWins))
    requires exists p :: p in pairs && p.cls == cls && {p.a, p.b} == {a, b}
    ensures CapRelation(cls, a, b, pairs) == if aWins then First else if bWins then Second else Incomparable
  {
    if !aWins && !bWins {
      NoEntryResolved(cls, a, b, pairs);
    } else {
      SomeEntryResolved(cls, a, b, pairs, aWins);
    }
  }

  lemma {:induction false} NoEntryResolved(cls: string, a: string, b: string, pairs: seq<Pair>)
    requires forall p | p in pairs && p.cls == cls && {p.a, p.b} == {a, b} :: !p.resolved
    ensures CapRelation(cls, a, b, pairs) == Incomparable
  {
    if pairs != [] {
      NoEntryResolved(cls, a, b, pairs[1..]);
    }
  }

  lemma {:induction false} SomeEntryResolved(cls: string, a: string, b: string, pairs: seq<Pair>, aWins: bool)
    requires forall p | p in pairs && p.cls == cls && {p.a, p.b} == {a, b} ::
      p.resolved && (p.dominant == Some(a) <==> aWins)
    requires exists p :: p in pairs && p.cls == cls && {p.a, p.b} == {a, b}
    ensures CapRelation(cls, a, b, pairs) == if aWins then First else Second
  {
    var p := pairs[0];
    if p.cls == cls && {p.a, p.b} == {a, b} {
    } else {
      assert pairs == [p] + pairs[1..];
      SomeEntryResolved(cls, a, b, pairs[1..], aWins);
    }
  }

  /** The table's relation is interval dominance, in either reading direction. */
  lemma RelationIsDominance(rows: seq<Row>, pairs: seq<Pair>, a: Row, b: Row)
    requires UniqueCells(rows) && WellOrdered(rows) && IsTable(rows, pairs)
    requires a in rows && b in rows && a.cls == b.cls && a != b && a.interval.Some? && b.interval.Some?
    ensures CapRelation(a.cls, a.candidate, b.candidate, pairs) ==
      if Dominates(a.interval.value, b.interval.value) then First
      else if Dominates(b.interval.value, a.interval.value) then Second
      else Incomparable
  {
    hide IsTable;
    if a.candidate == b.candidate {
      SameCell(rows, a, b);
    }
    forall p | p in pairs && p.cls == a.cls && {p.a, p.b} == {a.candidate, b.candidate}
      ensures p.resolved <==> Resolved(a.interval.value, b.interval.value)
      ensures p.resolved ==> (p.dominant == Some(a.candidate) <==> Dominates(a.interval.value, b.interval.value))
    {
      EntryDecides(rows, pairs, p, a, b);
    }
    var p := EntryExists(rows, pairs, a, b);
    RelationFromEntries(a.cls, a.candidate, b.candidate, pairs, Dominates(a.interval.value, b.interval.value),
                        Dominates(b.interval.value, a.interval.value));
  }

  lemma BeatenIsBetter(rows: seq<Row>, costs: Costs, pairs: seq<Pair>, i: nat, j: nat)
    requires UniqueCells(rows) && WellOrdered(rows) && IsTable(rows, pairs)
    requires i < |Scored(rows)| && j < |Scored(rows)|
    ensures BeatenBy(Scored(rows), costs, pairs, i, j) <==> Better(costs, Scored(rows)[j], Scored(rows)[i])
  {
    hide IsTable, CapRelation, UniqueCells;
    var cells := Scored(rows);
    var a, b := cells[i], cells[j];
    assert a in cells && b in cells;
    ScoredUnique(rows);
    if i != j && a.cls == b.cls {
      RelationIsDominance(rows, pairs, a, b);
    } else if i == j {
      BetterIsStrictOrder(rows, costs, a, a, a);
    }
  }

  lemma {:induction false} ScoredUnique(rows: seq<Row>)
    requires UniqueCells(rows)
    ensures forall i, j | 0 <= i < j < |Scored(rows)| :: Scored(rows)[i] != Scored(rows)[j]
  {
    if rows != [] {
      var n := |rows| - 1;
      ScoredUnique(rows[..n]);
      forall c | c in rows[..n] ensures c != rows[n] {
        var k :| 0 <= k < n && rows[..n][k] == c;
        assert rows[k] == c;
      }
    }
  }

  ghost function Betters(rows: seq<Row>, costs: Costs, a: Row): set<Row> {
    set b | b in rows && Better(costs, b, a)
  }

  /** Every excluded survivor is beaten, on capability, cost and latency, by a survivor of its class that is
      itself on the front. */
  lemma {:induction false} BeatenFromTheFront(rows: seq<Row>, costs: Costs, pairs: seq<Pair>, i: nat) returns (j: nat)
    requires UniqueCells(rows) && WellOrdered(rows) && IsTable(rows, pairs) && i < |Scored(rows)|
    ensures j < |Scored(rows)| && OnFront(Scored(rows), costs, pairs, j)
    ensures j == i || Better(costs, Scored(rows)[j], Scored(rows)[i])
    decreases |Betters(rows, costs, Scored(rows)[i])|
  {
    hide IsTable, UniqueCells;
    var cells := Scored(rows);
    if OnFront(cells, costs, pairs, i) {
      j := i;
    } else {
      var k :| 0 <= k < |cells| && BeatenBy(cells, costs, pairs, i, k);
      BeatenIsBetter(rows, costs, pairs, i, k);
      var a, b := cells[i], cells[k];
      assert a in cells && b in cells;
      forall c | c in rows && Better(costs, c, b) ensures Better(costs, c, a) {
        BetterIsStrictOrder(rows, costs, a, b, c);
      }
      BetterIsStrictOrder(rows, costs, b, b, b);
      assert b in Betters(rows, costs, a) && b !in Betters(rows, costs, b);
      assert Betters(rows, costs, b) < Betters(rows, costs, a);
      Smaller(Betters(rows, costs, b), Betters(rows, costs, a));
      j := BeatenFromTheFront(rows, costs, pairs, k);
      if j != k {
        assert cells[j] in cells;
        BetterIsStrictOrder(rows, costs, a, b, cells[j]);
      }
    }
  }

  lemma Smaller<T>(a: set<T>, b: set<T>)
    requires a < b
    ensures |a| < |b|
  {
    assert b == a + (b - a);
    var x :| x in b - a;
    assert |b - a| > 0;
  }

  lemma {:induction false} FrontKeysExactly(cells: seq<Row>, costs: Costs, pairs: seq<Pair>, n: nat)
    requires n <= |cells|
    ensures forall i | 0 <= i < n :: OnFront(cells, costs, pairs, i) ==>
      KeyOf(cells[i]) in FrontKeys(cells, costs, pairs, n)
    ensures forall k | k in FrontKeys(cells, costs, pairs, n) ::
      exists i :: 0 <= i < n && KeyOf(cells[i]) == k && OnFront(cells, costs, pairs, i)
  {
    if n > 0 {
      FrontKeysExactly(cells, costs, pairs, n - 1);
    }
  }

  /** What `pareto_nondominated` returns: a survivor is missing exactly when some survivor beats it, and then one
      on the returned front does. So a class with a survivor has a non-empty front. */
  lemma FrontIsSoundAndCovers(rows: seq<Row>, costs: Costs, pairs: seq<Pair>, i: nat)
    requires UniqueCells(rows) && WellOrdered(rows) && IsTable(rows, pairs) && i < |Scored(rows)|
    ensures var cells := Scored(rows); var front := FrontKeys(cells, costs, pairs, |cells|);
      && (KeyOf(cells[i]) in front <==> forall b | b in cells :: !Better(costs, b, cells[i]))
      && (KeyOf(cells[i]) !in front ==>
            exists j :: 0 <= j < |cells| && KeyOf(cells[j]) in front && Better(costs, cells[j], cells[i]))
      && (exists j :: 0 <= j < |cells| && KeyOf(cells[j]) in front && cells[j].cls == cells[i].cls)
  {
    hide IsTable, CapRelation;
    var cells := Scored(rows);
    FrontKeysExactly(cells, costs, pairs, |cells|);
    forall x | 0 <= x < |cells|
      ensures KeyOf(cells[x]) in FrontKeys(cells, costs, pairs, |cells|) <==> OnFront(cells, costs, pairs, x) {
      if KeyOf(cells[x]) in FrontKeys(cells, costs, pairs, |cells|) {
        var y :| 0 <= y < |cells| && KeyOf(cells[y]) == KeyOf(cells[x]) && OnFront(cells, costs, pairs, y);
        assert cells[x] in cells && cells[y] in cells;
        SameCell(rows, cells[x], cells[y]);
        ScoredUnique(rows);
        assert x == y;
      }
    }
    forall j | 0 <= j < |cells| ensures BeatenBy(cells, costs, pairs, i, j) <==> Better(costs, cells[j], cells[i]) {
      BeatenIsBetter(rows, costs, pairs, i, j);
    }
    var j := BeatenFromTheFront(rows, costs, pairs, i);
    assert KeyOf(cells[j]) in FrontKeys(cells, costs, pairs, |cells|);
  }
}
