/** The bisection quantile, the credible interval and interval dominance (scripts/proof_bench.py).
    The Beta distribution function is arbitrary; reals stand for floats, which is exact here: every
    midpoint is a dyadic with at most 41 binary places. */
module Quantile {
  import opened Options

  const PPF_TOL: real := 0.000000000001
  const PPF_ITMAX: nat := 200
  const HALVINGS: nat := 40

  datatype Bracket = Bracket(lo: real, hi: real) {
    function Mid(): real {
      0.5 * (lo + hi)
    }

    function Narrow(cdf: real -> real, p: real): Bracket {
      if cdf(Mid()) < p then Bracket(Mid(), hi) else Bracket(lo, Mid())
    }
  }

  /** The bracket after `k` halvings of the unit interval. */
  function Halved(cdf: real -> real, p: real, k: nat): Bracket {
    if k == 0 then Bracket(0.0, 1.0) else Halved(cdf, p, k - 1).Narrow(cdf, p)
  }

  lemma HalvedStep(cdf: real -> real, p: real, k: nat)
    ensures Halved(cdf, p, 0) == Bracket(0.0, 1.0)
    ensures Halved(cdf, p, k + 1) == Halved(cdf, p, k).Narrow(cdf, p)
  {
  }

  function Width(k: nat): (w: real)
    ensures 0.0 < w <= 1.0
  {
    if k == 0 then 1.0 else Width(k - 1) / 2.0
  }

  lemma {:induction false} HalvedWidth(cdf: real -> real, p: real, k: nat)
    ensures var b := Halved(cdf, p, k); b.hi - b.lo == Width(k) && 0.0 <= b.lo && b.hi <= 1.0
  {
    if k > 0 {
      HalvedWidth(cdf, p, k - 1);
    }
  }

  lemma {:induction false} WidthShrinks(j: nat, k: nat)
    requires j <= k
    ensures Width(k) <= Width(j)
    decreases k
  {
    if j < k {
      WidthShrinks(j, k - 1);
    }
  }

  lemma WidthFive(k: nat)
    ensures Width(k + 5) == Width(k) / 32.0
  {
    assert Width(k + 5) == Width(k + 4) / 2.0 && Width(k + 4) == Width(k + 3) / 2.0
      && Width(k + 3) == Width(k + 2) / 2.0;
    assert Width(k + 2) == Width(k + 1) / 2.0;
  }

  /** The tolerance lies strictly between the 39th and the 40th width. */
  lemma ToleranceAtForty()
    ensures Width(40) < PPF_TOL <= Width(39)
  {
    WidthFive(0);
    WidthFive(5);
    WidthFive(10);
    WidthFive(15);
    WidthFive(20);
    WidthFive(25);
    WidthFive(30);
    WidthFive(35);
    assert Width(40) == Width(39) / 2.0;
  }

  function QuantileOf(cdf: real -> real, p: real): real {
    Halved(cdf, p, HALVINGS).Mid()
  }

  /** `_beta_ppf`: whatever the distribution function does, the loop stops after exactly 40 halvings,
      far below its cap. */
  method BetaPpf(cdf: real -> real, p: real) returns (r: real, rounds: nat)
    ensures r == QuantileOf(cdf, p) && rounds == HALVINGS
  {
    hide Halved, Width;
    var lo, hi := 0.0, 1.0;
    rounds := 0;
    HalvedStep(cdf, p, 0);
    ToleranceAtForty();
    while rounds < PPF_ITMAX
      invariant rounds < HALVINGS && Bracket(lo, hi) == Halved(cdf, p, rounds)
    {
      var mid := 0.5 * (lo + hi);
      if cdf(mid) < p {
        lo := mid;
      } else {
        hi := mid;
      }
      HalvedStep(cdf, p, rounds);
      rounds := rounds + 1;
      HalvedWidth(cdf, p, rounds);
      if hi - lo < PPF_TOL {
        if rounds < HALVINGS { WidthShrinks(rounds, 39); }
        break;
      }
      if rounds == HALVINGS { assert false; }
    }
    r := 0.5 * (lo + hi);
  }

  // ---- the quantile as a quantile ----------------------------------------

  ghost predicate Monotone(cdf: real -> real) {
    forall x, y :: x <= y ==> cdf(x) <= cdf(y)
  }

  /** For a monotone distribution function, every point below the level lies left of the bracket's end and every
      point at or above it right of its start. */
  lemma {:induction false} BracketsTheLevel(cdf: real -> real, p: real, k: nat, x: real)
    requires Monotone(cdf) && 0.0 <= x <= 1.0
    ensures cdf(x) < p ==> x <= Halved(cdf, p, k).hi
    ensures cdf(x) >= p ==> Halved(cdf, p, k).lo <= x
  {
    if k > 0 {
      BracketsTheLevel(cdf, p, k - 1, x);
      var m := Halved(cdf, p, k - 1).Mid();
      assert x <= m ==> cdf(x) <= cdf(m);
      assert m <= x ==> cdf(m) <= cdf(x);
    }
  }

  /** The returned value is within half the last width of the level crossing. */
  lemma QuantileIsTheCrossing(cdf: real -> real, p: real, x: real)
    requires Monotone(cdf) && 0.0 <= x <= 1.0
    ensures cdf(x) < p ==> x <= QuantileOf(cdf, p) + PPF_TOL / 2.0
    ensures cdf(x) >= p ==> QuantileOf(cdf, p) - PPF_TOL / 2.0 <= x
  {
    hide Halved;
    BracketsTheLevel(cdf, p, HALVINGS, x);
    HalvedWidth(cdf, p, HALVINGS);
    ToleranceAtForty();
  }

  /** Lock step: the brackets of two levels coincide, or the lower level's lies entirely left. */
  lemma {:induction false} LockStep(cdf: real -> real, p: real, q: real, k: nat)
    requires p <= q
    ensures var a, b := Halved(cdf, p, k), Halved(cdf, q, k); a == b || a.hi <= b.lo
  {
    if k > 0 {
      LockStep(cdf, p, q, k - 1);
      HalvedWidth(cdf, p, k - 1);
      HalvedWidth(cdf, q, k - 1);
    }
  }

  /** Quantiles grow with the level for any function at all, monotone or not. */
  lemma QuantileMonotone(cdf: real -> real, p: real, q: real)
    requires p <= q
    ensures QuantileOf(cdf, p) <= QuantileOf(cdf, q)
  {
    hide Halved;
    LockStep(cdf, p, q, HALVINGS);
    HalvedWidth(cdf, p, HALVINGS);
    HalvedWidth(cdf, q, HALVINGS);
  }

  /** Lock step of two functions at one level: the bracket of the one that lies above is the other's, or lies left. */
  lemma {:induction false} LockStepOfTwo(above: real -> real, below: real -> real, p: real, k: nat)
    requires forall x :: below(x) <= above(x)
    ensures var a, b := Halved(above, p, k), Halved(below, p, k); a == b || a.hi <= b.lo
  {
    if k > 0 {
      LockStepOfTwo(above, below, p, k - 1);
      HalvedWidth(above, p, k - 1);
      HalvedWidth(below, p, k - 1);
    }
  }

  /** The function that lies above has the lower quantile. */
  lemma QuantileOfTheHigher(above: real -> real, below: real -> real, p: real)
    requires forall x :: below(x) <= above(x)
    ensures QuantileOf(above, p) <= QuantileOf(below, p)
  {
    hide Halved;
    LockStepOfTwo(above, below, p, HALVINGS);
    HalvedWidth(above, p, HALVINGS);
    HalvedWidth(below, p, HALVINGS);
  }

  // ---- credible intervals and dominance ----------------------------------

  datatype Interval = Interval(lo: real, hi: real, mass: real, successes: int, trials: int)

  /** The posterior's distribution function for the two shape parameters. */
  type Posterior = (real, real) -> real -> real

  /** `credible_interval`; `None` is the error for impossible counts. */
  function CredibleInterval(beta: Posterior, successes: int, trials: int, mass: real): Option<Interval> {
    if trials < 0 || successes < 0 || successes > trials then None
    else
      var cdf := beta(successes as real + 0.5, (trials - successes) as real + 0.5);
      var tail := (1.0 - mass) / 2.0;
      Some(Interval(if trials == 0 then 0.0 else QuantileOf(cdf, tail),
                    if trials == 0 then 1.0 else QuantileOf(cdf, 1.0 - tail), mass, successes, trials))
  }

  predicate Dominates(a: Interval, b: Interval) {
    a.lo > b.hi
  }

  /** Do the two intervals separate in either direction? */
  predicate Resolved(a: Interval, b: Interval) {
    Dominates(a, b) || Dominates(b, a)
  }

  predicate Ordered(i: Interval) {
    i.lo <= i.hi
  }

  /** At any non-negative mass the ends are in order and inside the unit interval. */
  lemma IntervalOrdered(beta: Posterior, successes: int, trials: int, mass: real)
    requires 0.0 <= mass && CredibleInterval(beta, successes, trials, mass).Some?
    ensures var i := CredibleInterval(beta, successes, trials, mass).value; 0.0 <= i.lo <= i.hi <= 1.0
  {
    hide QuantileOf;
    var cdf := beta(successes as real + 0.5, (trials - successes) as real + 0.5);
    var tail := (1.0 - mass) / 2.0;
    QuantileMonotone(cdf, tail, 1.0 - tail);
    QuantileInUnit(cdf, tail);
    QuantileInUnit(cdf, 1.0 - tail);
  }

  lemma QuantileInUnit(cdf: real -> real, p: real)
    ensures 0.0 <= QuantileOf(cdf, p) <= 1.0
  {
    hide Halved;
    HalvedWidth(cdf, p, HALVINGS);
  }

  /** The non-negative masses are exactly the good ones: below zero some distribution function, a flat one,
      turns the interval around. */
  lemma NegativeMassTurnsAround(successes: int, trials: int, mass: real) returns (beta: Posterior)
    requires mass < 0.0 && 0 <= successes <= trials && 0 < trials
    ensures var i := CredibleInterval(beta, successes, trials, mass); i.Some? && i.value.hi < i.value.lo
  {
    var level := 1.0 - (1.0 - mass) / 2.0;
    beta := (a, b) => x => level;
    var cdf := beta(successes as real + 0.5, (trials - successes) as real + 0.5);
    FlatQuantile(cdf, level, (1.0 - mass) / 2.0);
    FlatQuantile(cdf, level, level);
  }

  lemma FlatQuantile(cdf: real -> real, c: real, p: real)
    requires forall x :: cdf(x) == c
    ensures if c < p then QuantileOf(cdf, p) > 0.5 else QuantileOf(cdf, p) < 0.5
  {
    FlatBracket(cdf, c, p, HALVINGS);
    HalvedWidth(cdf, p, HALVINGS);
    ToleranceAtForty();
    hide Halved;
  }

  lemma {:induction false} FlatBracket(cdf: real -> real, c: real, p: real, k: nat)
    requires forall x :: cdf(x) == c
    ensures if c < p then Halved(cdf, p, k).hi == 1.0 else Halved(cdf, p, k).lo == 0.0
  {
    if k > 0 {
      FlatBracket(cdf, c, p, k - 1);
    }
  }

  /** The distribution function falls as the first parameter grows, and rises with the second: successes move the mass
      to the right, failures to the left. */
  ghost predicate SuccessesMoveRight(beta: Posterior) {
    forall a, b, a', b', x :: a <= a' && b' <= b ==> beta(a', b')(x) <= beta(a, b)(x)
  }

  /** Of two candidates with equally many trials, the one with more successes has neither end of its interval lower. */
  lemma MoreSuccessesNeverLower(beta: Posterior, s: int, s': int, trials: int, mass: real)
    requires SuccessesMoveRight(beta) && s <= s'
    requires CredibleInterval(beta, s, trials, mass).Some? && CredibleInterval(beta, s', trials, mass).Some?
    ensures var i, j := CredibleInterval(beta, s, trials, mass).value, CredibleInterval(beta, s', trials, mass).value;
      i.lo <= j.lo && i.hi <= j.hi
  {
    hide QuantileOf;
    var f := beta(s as real + 0.5, (trials - s) as real + 0.5);
    var g := beta(s' as real + 0.5, (trials - s') as real + 0.5);
    var tail := (1.0 - mass) / 2.0;
    QuantileOfTheHigher(f, g, tail);
    QuantileOfTheHigher(f, g, 1.0 - tail);
  }

  /** What the ends are: the points where the posterior with half a success and half a failure added reaches half of the
      mass left out, from below and from above. Nothing tried is anything possible. */
  lemma IntervalLeavesOutHalfOnEachSide(beta: Posterior, s: int, trials: int, mass: real, x: real)
    requires 0 <= s <= trials && 0.0 <= x <= 1.0
    requires Monotone(beta(s as real + 0.5, (trials - s) as real + 0.5))
    ensures CredibleInterval(beta, s, trials, mass).Some?
    ensures var i, below := CredibleInterval(beta, s, trials, mass).value,
                            beta(s as real + 0.5, (trials - s) as real + 0.5)(x);
      if trials == 0 then i.lo == 0.0 && i.hi == 1.0
      else
        && (2.0 * below < 1.0 - mass ==> x <= i.lo + PPF_TOL / 2.0)
        && (2.0 * below >= 1.0 - mass ==> i.lo - PPF_TOL / 2.0 <= x)
        && (2.0 * below < 1.0 + mass ==> x <= i.hi + PPF_TOL / 2.0)
        && (2.0 * below >= 1.0 + mass ==> i.hi - PPF_TOL / 2.0 <= x)
  {
    hide QuantileOf;
    var cdf := beta(s as real + 0.5, (trials - s) as real + 0.5);
    QuantileIsTheCrossing(cdf, (1.0 - mass) / 2.0, x);
    QuantileIsTheCrossing(cdf, 1.0 - (1.0 - mass) / 2.0, x);
  }

  /** For the same counts, the interval of a larger mass contains that of a smaller one. */
  lemma IntervalsNest(beta: Posterior, successes: int, trials: int, mass: real, wider: real)
    requires mass <= wider && CredibleInterval(beta, successes, trials, mass).Some?
    ensures var i, w := CredibleInterval(beta, successes, trials, mass),
      CredibleInterval(beta, successes, trials, wider);
      w.Some? && w.value.lo <= i.value.lo && i.value.hi <= w.value.hi
  {
    hide QuantileOf;
    var cdf := beta(successes as real + 0.5, (trials - successes) as real + 0.5);
    QuantileMonotone(cdf, (1.0 - wider) / 2.0, (1.0 - mass) / 2.0);
    QuantileMonotone(cdf, 1.0 - (1.0 - mass) / 2.0, 1.0 - (1.0 - wider) / 2.0);
  }

  /** A separation claimed at a demanding level holds at every laxer one. */
  lemma DominanceAtEveryLowerMass(beta: Posterior, s: int, n: int, s': int, n': int, mass: real, wider: real)
    requires mass <= wider
    requires CredibleInterval(beta, s, n, wider).Some? && CredibleInterval(beta, s', n', wider).Some?
    requires Dominates(CredibleInterval(beta, s, n, wider).value, CredibleInterval(beta, s', n', wider).value)
    ensures CredibleInterval(beta, s, n, mass).Some? && CredibleInterval(beta, s', n', mass).Some?
    ensures Dominates(CredibleInterval(beta, s, n, mass).value, CredibleInterval(beta, s', n', mass).value)
  {
    hide QuantileOf;
    IntervalsNest(beta, s, n, mass, wider);
    IntervalsNest(beta, s', n', mass, wider);
  }
}
