/** The capability map (`build_map` in scripts/capability_screen.py): the cascade's cells and prices, the pair table and
    the non-dominated set read off them. */
module CapabilityMap {
  import opened Options
  import Quantile
  import Cascade
  import opened ParetoFront

  function RowsOf(results: seq<Cascade.StageResult>): (rows: seq<Row>)
    reads results
    ensures |rows| == |results|
    ensures forall i | 0 <= i < |rows| :: rows[i] == Row(results[i].candidate, results[i].cls, results[i].interval)
  {
    if results == [] then [] else
      [Row(results[0].candidate, results[0].cls, results[0].interval)] + RowsOf(results[1..])
  }

  function PricesOf(costs: seq<Cascade.CostLatency>): (prices: seq<Cost>)
    reads costs
    ensures |prices| == |costs|
    ensures forall i | 0 <= i < |prices| :: prices[i] == Cost(costs[i].usdPerCase, costs[i].seconds)
  {
    if costs == [] then [] else [Cost(costs[0].usdPerCase, costs[0].seconds)] + PricesOf(costs[1..])
  }

  /** Cell `j` is strictly more capable than cell `i` of the same class, and no worse on cost and latency. */
  ghost predicate Beats(rows: seq<Row>, prices: seq<Cost>, j: nat, i: nat)
    requires |rows| == |prices| && i < |rows| && j < |rows|
  {
    && rows[j].cls == rows[i].cls && rows[j].interval.Some? && rows[i].interval.Some?
    && rows[i].interval.value.hi < rows[j].interval.value.lo
    && prices[j].usdPerCase <= prices[i].usdPerCase && prices[j].seconds <= prices[i].seconds
  }

  ghost predicate BeatenByNone(rows: seq<Row>, prices: seq<Cost>, i: nat)
    requires |rows| == |prices| && i < |rows|
  {
    forall j | 0 <= j < |rows| :: !Beats(rows, prices, j, i)
  }

  ghost predicate BeatenByPublished(rows: seq<Row>, prices: seq<Cost>, front: seq<(string, string)>, i: nat)
    requires |rows| == |prices| && i < |rows|
  {
    exists j :: 0 <= j < |rows| && KeyOf(rows[j]) in front && Beats(rows, prices, j, i)
  }

  /** A measured cell is published exactly when no cell beats it, a measured cell that is left out is beaten by a
      published one, and nothing else is published. */
  ghost predicate IsFront(rows: seq<Row>, prices: seq<Cost>, front: seq<(string, string)>)
    requires |rows| == |prices|
  {
    && (forall i | 0 <= i < |rows| && rows[i].interval.Some? ::
          (KeyOf(rows[i]) in front <==> BeatenByNone(rows, prices, i))
          && (KeyOf(rows[i]) !in front ==> BeatenByPublished(rows, prices, front, i)))
    && (forall key | key in front :: exists i :: 0 <= i < |rows| && rows[i].interval.Some? && key == KeyOf(rows[i]))
  }

  /** The dictionary gives every row its own price. */
  ghost predicate Priced(rows: seq<Row>, prices: seq<Cost>, costBy: Costs) {
    |rows| == |prices| && forall i | 0 <= i < |rows| :: KeyOf(rows[i]) in costBy && costBy[KeyOf(rows[i])] == prices[i]
  }

  /** `cost_by`. */
  method CostBy(ghost rows: seq<Row>, costs: seq<Cascade.CostLatency>) returns (costBy: Costs)
    requires |rows| == |costs| && UniqueCells(rows)
    requires forall i | 0 <= i < |costs| :: (costs[i].candidate, costs[i].cls) == KeyOf(rows[i])
    ensures Priced(rows, PricesOf(costs), costBy)
  {
    costBy := map[];
    for k := 0 to |costs|
      invariant forall i | 0 <= i < k ::
          KeyOf(rows[i]) in costBy && costBy[KeyOf(rows[i])] == Cost(costs[i].usdPerCase, costs[i].seconds)
    {
      costBy := costBy[(costs[k].candidate, costs[k].cls) := Cost(costs[k].usdPerCase, costs[k].seconds)];
    }
  }

  lemma BetterIsBeats(rows: seq<Row>, prices: seq<Cost>, costBy: Costs, j: nat, i: nat)
    requires Priced(rows, prices, costBy) && i < |rows| && j < |rows|
    ensures Better(costBy, rows[j], rows[i]) <==> Beats(rows, prices, j, i)
  {
  }

  /** What the published set says of one measured cell. */
  lemma OneCell(rows: seq<Row>, prices: seq<Cost>, costBy: Costs, pairs: seq<Pair>, front: seq<(string, string)>,
                i: nat)
    requires UniqueCells(rows) && WellOrdered(rows) && IsTable(rows, pairs) && Priced(rows, prices, costBy)
    requires front == FrontKeys(Scored(rows), costBy, pairs, |Scored(rows)|)
    requires i < |rows| == |prices| && rows[i].interval.Some?
    ensures KeyOf(rows[i]) in front <==> BeatenByNone(rows, prices, i)
    ensures KeyOf(rows[i]) !in front ==> BeatenByPublished(rows, prices, front, i)
  {
    hide UniqueCells, WellOrdered, IsTable, Priced, Better, Beats, FrontKeys, Scored;
    var cells := Scored(rows);
    var c := IndexOf(cells, rows[i]);
    FrontIsSoundAndCovers(rows, costBy, pairs, c);
    if KeyOf(rows[i]) in front {
      forall j | 0 <= j < |rows| ensures !Beats(rows, prices, j, i) {
        BetterIsBeats(rows, prices, costBy, j, i);
        BeatsNeedsInterval(rows, prices, j, i);
      }
    } else {
      var x :| 0 <= x < |cells| && KeyOf(cells[x]) in front && Better(costBy, cells[x], rows[i]);
      var j := IndexOf(rows, cells[x]);
      BetterIsBeats(rows, prices, costBy, j, i);
    }
  }

  lemma BeatsNeedsInterval(rows: seq<Row>, prices: seq<Cost>, j: nat, i: nat)
    requires |rows| == |prices| && i < |rows| && j < |rows|
    ensures Beats(rows, prices, j, i) ==> rows[j] in Scored(rows)
  {
  }

  lemma FrontIsFront(rows: seq<Row>, prices: seq<Cost>, costBy: Costs, pairs: seq<Pair>)
    requires UniqueCells(rows) && WellOrdered(rows) && IsTable(rows, pairs) && Priced(rows, prices, costBy)
    ensures IsFront(rows, prices, FrontKeys(Scored(rows), costBy, pairs, |Scored(rows)|))
  {
    hide UniqueCells, WellOrdered, IsTable, FrontKeys, Scored, BeatenByNone, BeatenByPublished, OnFront;
    var cells := Scored(rows);
    var front := FrontKeys(cells, costBy, pairs, |cells|);
    forall i | 0 <= i < |rows| && rows[i].interval.Some?
      ensures KeyOf(rows[i]) in front <==> BeatenByNone(rows, prices, i)
      ensures KeyOf(rows[i]) !in front ==> BeatenByPublished(rows, prices, front, i)
    {
      OneCell(rows, prices, costBy, pairs, front, i);
    }
    FrontKeysExactly(cells, costBy, pairs, |cells|);
    forall key | key in front ensures exists i :: 0 <= i < |rows| && rows[i].interval.Some? && key == KeyOf(rows[i]) {
      var x :| 0 <= x < |cells| && KeyOf(cells[x]) == key && OnFront(cells, costBy, pairs, x);
      var i := IndexOf(rows, cells[x]);
    }
  }

  /** `build_map`: the pair table, the classes it cannot separate, and the non-dominated set. */
  method BuildMap(results: seq<Cascade.StageResult>, costs: seq<Cascade.CostLatency>)
    returns (pairs: seq<Pair>, underpowered: seq<string>, front: seq<(string, string)>)
    requires |results| == |costs| && UniqueCells(RowsOf(results)) && WellOrdered(RowsOf(results))
    requires forall i | 0 <= i < |costs| :: (costs[i].candidate, costs[i].cls) == KeyOf(RowsOf(results)[i])
    ensures IsTable(RowsOf(results), pairs)
    ensures forall c :: c in underpowered <==>
        |Sorted(RowsOf(results), c)| >= 2 && !AnyResolved(Sorted(RowsOf(results), c))
    ensures IsFront(RowsOf(results), PricesOf(costs), front)
  {
    hide UniqueCells, WellOrdered, IsTable, IsFront, Scored, FrontKeys, Sorted, InTable, AnyResolved, Priced;
    var rows := RowsOf(results);
    var costBy := CostBy(rows, costs);
    pairs, underpowered := BuildPairs(rows);
    TableIs(rows, pairs);
    front := ParetoNondominated(rows, costBy, pairs);
    FrontIsFront(rows, PricesOf(costs), costBy, pairs);
  }

  lemma TableIs(rows: seq<Row>, pairs: seq<Pair>)
    requires forall p :: p in pairs <==> InTable(Sorted(rows, p.cls), p)
    ensures IsTable(rows, pairs)
  {
    hide InTable, Sorted;
  }

  /** A whole screen, from the first smoke call to the published front, against any attempt function and any posterior:
      every measured cell that is left out is beaten by a published cell of its class on capability, cost and
      latency. */
  method ScreenAndMap(attempt: nat -> Cascade.AttemptResult, battery: seq<Cascade.BatteryCase>,
                      candidates: seq<Cascade.Candidate>, enumerated: set<string>, subjects: set<string>,
                      nByClass: map<string, int>, prices: map<string, real>, beta: Quantile.Posterior, mass: real)
    returns (r: Option<(seq<Cascade.StageResult>, seq<Cascade.CostLatency>)>, front: seq<(string, string)>)
    requires Cascade.DistinctIds(candidates) && 0.0 <= mass
    ensures r.Some? <==> Cascade.Registered(battery, candidates, enumerated, subjects)
    ensures r.Some? ==> |r.value.0| == |r.value.1| && IsFront(RowsOf(r.value.0), PricesOf(r.value.1), front)
  {
    hide IsTable, IsFront, UniqueCells, WellOrdered, Cascade.CoversAll, Cascade.Registered, Cascade.ScreenBeforeBayes,
         Cascade.DistinctCells, Cascade.AllReported;
    var trace;
    front := [];
    r, trace := Cascade.RunCascade(attempt, battery, candidates, enumerated, subjects, nByClass, prices, beta, mass);
    if r.None? {
      return;
    }
    var results, costs := r.value.0, r.value.1;
    ReportedCells(results, costs, trace, battery, nByClass, prices, beta, mass);
    var pairs, underpowered;
    pairs, underpowered, front := BuildMap(results, costs);
  }

  /** The cascade's report is what the map needs: distinct cells, ordered intervals, one cost record each. */
  lemma {:induction false} ReportedCells(results: seq<Cascade.StageResult>, costs: seq<Cascade.CostLatency>,
      trace: seq<Cascade.Call>,
      battery: seq<Cascade.BatteryCase>, nByClass: map<string, int>, prices: map<string, real>,
                                         beta: Quantile.Posterior, mass: real)
    requires Cascade.AllReported(results, costs, trace, battery, nByClass, prices, beta, mass)
    requires Cascade.DistinctCells(results) && 0.0 <= mass
    ensures |results| == |costs| && UniqueCells(RowsOf(results)) && WellOrdered(RowsOf(results))
    ensures forall i | 0 <= i < |costs| :: (costs[i].candidate, costs[i].cls) == KeyOf(RowsOf(results)[i])
  {
    hide Cascade.Reported, Cascade.TallyFor, Cascade.CasesOf;
    var rows := RowsOf(results);
    forall i | 0 <= i < |results|
      ensures (costs[i].candidate, costs[i].cls) == KeyOf(rows[i])
      ensures rows[i].interval.Some? ==> Quantile.Ordered(rows[i].interval.value)
    {
      ReportedIsOrdered(results[i], costs[i], Cascade.TallyFor(trace, results[i].candidate, results[i].cls),
                        |Cascade.CasesOf(battery, results[i].cls)|, Cascade.RegisteredN(nByClass, results[i].cls),
                        Cascade.PriceOf(prices, results[i].candidate), beta, mass);
    }
    forall i, j | 0 <= i < j < |rows| ensures KeyOf(rows[i]) != KeyOf(rows[j]) {
      assert (results[i].candidate, results[i].cls) != (results[j].candidate, results[j].cls);
    }
  }

  lemma ReportedIsOrdered(c: Cascade.StageResult, k: Cascade.CostLatency, t: Cascade.Tally, cases: nat, n: int,
                          price: real, beta: Quantile.Posterior, mass: real)
    requires Cascade.Reported(c, k, t, cases, n, price, beta, mass) && 0.0 <= mass
    ensures k.candidate == c.candidate && k.cls == c.cls
    ensures c.interval.Some? ==> Quantile.Ordered(c.interval.value)
  {
    hide Quantile.CredibleInterval;
    if c.interval.Some? {
      Quantile.IntervalOrdered(beta, t.verified, t.trials, mass);
    }
  }
}
