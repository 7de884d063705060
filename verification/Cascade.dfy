/** The three-stage capability cascade, smoke, trigger screen, Bayes@N, against an arbitrary attempt
    function (`run_cascade` in scripts/capability_screen.py). */
module Cascade {
  import opened Options
  import opened Quantile
  import opened Text
  import Sorting

  datatype Candidate = Candidate(id: string, costClass: string, callable: bool) {
    /** The tuple `(rank, id)` as one string: cheap before mid before expensive before anything else. */
    function OrderKey(): string {
      (if costClass == "cheap" then "0" else if costClass == "mid" then "1" else if costClass == "expensive" then "2"
       else "9") + id
    }
  }

  datatype BatteryCase = BatteryCase(caseId: string, findingClass: string)

  datatype AttemptResult = AttemptResult(
    produced: bool, triggered: bool, verified: bool, tokens: int, seconds: real, transient: bool, infra: bool)

  datatype Stage = Smoke | Screen | Bayes
  datatype Call = Call(candidate: string, cls: string, caseId: string, stage: Stage, result: AttemptResult)

  const TRANSIENT_RETRY_CAP: nat := 3
  const SCREEN_TRANSIENT_RETRY: nat := 1

  datatype SmokeStatus = SmokePass | PlumbingFail | SmokeInfra

  class StageResult {
    const candidate: string
    const cls: string
    var smoke: SmokeStatus
    var unavailable: bool
    var triggered: bool
    var verifiedK: nat
    var n: int
    var transientFailures: nat
    var interval: Option<Interval>

    constructor (candidate: string, cls: string, n: int)
      ensures this.candidate == candidate && this.cls == cls && this.n == n
      ensures smoke == SmokePass && !unavailable && !triggered
          && verifiedK == 0 && transientFailures == 0 && interval == None
    {
      this.candidate, this.cls, this.n := candidate, cls, n;
      smoke, unavailable, triggered, verifiedK, transientFailures, interval := SmokePass, false, false, 0, 0, None;
    }
  }

  class CostLatency {
    const candidate: string
    const cls: string
    var tokens: int
    var seconds: real
    var passes: nat
    var usdPerCase: real
    var usdPerPass: Option<real>

    constructor (candidate: string, cls: string)
      ensures this.candidate == candidate && this.cls == cls
      ensures tokens == 0 && seconds == 0.0 && passes == 0
    {
      this.candidate, this.cls := candidate, cls;
      tokens, seconds, passes, usdPerCase, usdPerPass := 0, 0.0, 0, 0.0, None;
    }

    /** `_accrue`: transient attempts cost nothing. */
    method Accrue(res: AttemptResult)
      modifies `tokens, `seconds
      ensures tokens == old(tokens) + (if res.transient then 0 else res.tokens)
      ensures seconds == old(seconds) + (if res.transient then 0.0 else res.seconds)
    {
      if res.transient {
        return;
      }
      tokens, seconds := tokens + res.tokens, seconds + res.seconds;
    }

    /** `_finalize_cost`: no price per pass when nothing passed. */
    method Finalize(price: real)
      modifies this
      ensures tokens == old(tokens) && seconds == old(seconds) && passes == old(passes)
      ensures usdPerCase == tokens as real / 1000.0 * price
      ensures usdPerPass == if passes == 0 then None else Some(usdPerCase / passes as real)
    {
      usdPerCase := tokens as real / 1000.0 * price;
      usdPerPass := if passes == 0 then None else Some(usdPerCase / passes as real);
    }
  }

  // ---- the ledger --------------------------------------------------------

  /** What the calls of one candidate on one class add up to. */
  datatype Tally = Tally(transients: nat, tokens: int, seconds: real,
                         bayes: nat, trials: nat, verified: nat, fired: nat) {
    function Plus(t: Tally): Tally {
      Tally(transients + t.transients, tokens + t.tokens, seconds + t.seconds, bayes + t.bayes, trials + t.trials,
            verified + t.verified, fired + t.fired)
    }
  }

  const ZERO: Tally := Tally(0, 0, 0.0, 0, 0, 0, 0)

  function TallyOne(c: Call): Tally {
    var r := c.result;
    Tally(if c.stage != Smoke && r.transient then 1 else 0,
          if r.transient then 0 else r.tokens,
          if r.transient then 0.0 else r.seconds,
          if c.stage == Bayes then 1 else 0,
          if c.stage == Bayes && !r.transient then 1 else 0,
          if c.stage == Bayes && !r.transient && r.verified then 1 else 0,
          if c.stage == Screen && !r.transient && r.triggered then 1 else 0)
  }

  function TallyFor(trace: seq<Call>, candidate: string, cls: string): Tally {
    if trace == [] then ZERO
    else
      var c, t := trace[|trace| - 1], TallyFor(trace[..|trace| - 1], candidate, cls);
      if c.candidate == candidate && c.cls == cls then t.Plus(TallyOne(c)) else t
  }

  lemma PlusLaws(a: Tally, b: Tally, c: Tally)
    ensures a.Plus(b).Plus(c) == a.Plus(b.Plus(c)) && a.Plus(ZERO) == a && ZERO.Plus(a) == a
  {
  }

  lemma {:induction false} TallyAppend(a: seq<Call>, b: seq<Call>, candidate: string, cls: string)
    ensures TallyFor(a + b, candidate, cls) == TallyFor(a, candidate, cls).Plus(TallyFor(b, candidate, cls))
  {
    hide TallyOne, Tally.Plus;
    PlusLaws(TallyFor(a, candidate, cls), ZERO, ZERO);
    if b == [] {
      assert a + b == a;
    } else {
      var init, last := b[..|b| - 1], b[|b| - 1];
      assert (a + b)[..|a + b| - 1] == a + init && (a + b)[|a + b| - 1] == last;
      TallyAppend(a, init, candidate, cls);
      PlusLaws(TallyFor(a, candidate, cls), TallyFor(init, candidate, cls), TallyOne(last));
    }
  }

  datatype Column = Retries | BayesCalls | Trials | Passes | Fired

  /** Does a call count in that column? */
  predicate CountsIn(c: Call, column: Column) {
    match column
    case Retries => c.result.transient && c.stage in {Screen, Bayes}
    case BayesCalls => c.stage == Bayes
    case Trials => c.stage == Bayes && !c.result.transient
    case Passes => c.stage == Bayes && !c.result.transient && c.result.verified
    case Fired => c.stage == Screen && !c.result.transient && c.result.triggered
  }

  function Entry(t: Tally, column: Column): nat {
    match column
    case Retries => t.transients
    case BayesCalls => t.bayes
    case Trials => t.trials
    case Passes => t.verified
    case Fired => t.fired
  }

  /** The places of a trace with a call of that candidate and class that counts in the column. */
  ghost function Places(trace: seq<Call>, candidate: string, cls: string, column: Column): set<nat> {
    set k: nat | k < |trace| && CountsFor(trace[k], candidate, cls, column)
  }

  predicate CountsFor(c: Call, candidate: string, cls: string, column: Column) {
    c.candidate == candidate && c.cls == cls && CountsIn(c, column)
  }

  /** Each column of the tally is the number of the calls that count in it. */
  lemma {:induction false} TallyCounts(trace: seq<Call>, candidate: string, cls: string, column: Column)
    ensures Entry(TallyFor(trace, candidate, cls), column) == |Places(trace, candidate, cls, column)|
  {
    if trace == [] {
      assert Places([], candidate, cls, column) == {};
    } else {
      var n := |trace| - 1;
      hide TallyFor, Places, CountsFor;
      TallyCounts(trace[..n], candidate, cls, column);
      ColumnNext(trace, candidate, cls, column);
      PlacesNext(trace, candidate, cls, column);
    }
  }

  lemma PlacesNext(trace: seq<Call>, candidate: string, cls: string, column: Column)
    requires trace != []
    ensures var n := |trace| - 1;
      |Places(trace, candidate, cls, column)| == |Places(trace[..n], candidate, cls, column)|
        + if CountsFor(trace[n], candidate, cls, column) then 1 else 0
  {
    hide CountsFor;
    var n := |trace| - 1;
    var before, all := Places(trace[..n], candidate, cls, column), Places(trace, candidate, cls, column);
    var last: set<nat> := if CountsFor(trace[n], candidate, cls, column) then {n} else {};
    assert n !in before;
    forall k: nat ensures k in all <==> k in before || k in last {
      if k < n {
        assert trace[..n][k] == trace[k];
      }
    }
    assert all == before + last && before !! last;
  }

  lemma ColumnNext(trace: seq<Call>, candidate: string, cls: string, column: Column)
    requires trace != []
    ensures var n := |trace| - 1;
      Entry(TallyFor(trace, candidate, cls), column) == Entry(TallyFor(trace[..n], candidate, cls), column)
        + if CountsFor(trace[n], candidate, cls, column) then 1 else 0
  {
  }

  predicate About(trace: seq<Call>, candidate: string, cls: string) {
    forall c | c in trace :: c.candidate == candidate && c.cls == cls
  }

  lemma {:induction false} TallyElsewhere(trace: seq<Call>, candidate: string, cls: string)
    requires forall c | c in trace :: c.candidate != candidate || c.cls != cls
    ensures TallyFor(trace, candidate, cls) == ZERO
  {
    if trace != [] {
      TallyElsewhere(trace[..|trace| - 1], candidate, cls);
    }
  }

  lemma TallySingle(c: Call)
    ensures TallyFor([c], c.candidate, c.cls) == TallyOne(c)
  {
    assert [c][..0] == [];
  }

  lemma TallyNext(a: seq<Call>, c: Call)
    ensures TallyFor(a + [c], c.candidate, c.cls) == TallyFor(a, c.candidate, c.cls).Plus(TallyOne(c))
  {
    TallyAppend(a, [c], c.candidate, c.cls);
    TallySingle(c);
  }

  // ---- which calls are made ----------------------------------------------

  /** The calls of one candidate on one class, in order. */
  function CallsFor(trace: seq<Call>, candidate: string, cls: string): seq<Call> {
    if trace == [] then []
    else
      var c := trace[|trace| - 1];
      CallsFor(trace[..|trace| - 1], candidate, cls) + (if c.candidate == candidate && c.cls == cls then [c] else [])
  }

  lemma {:induction false} CallsAppend(a: seq<Call>, b: seq<Call>, candidate: string, cls: string)
    ensures CallsFor(a + b, candidate, cls) == CallsFor(a, candidate, cls) + CallsFor(b, candidate, cls)
  {
    if b == [] {
      assert a + b == a;
    } else {
      var init, last := b[..|b| - 1], b[|b| - 1];
      assert (a + b)[..|a + b| - 1] == a + init && (a + b)[|a + b| - 1] == last;
      CallsAppend(a, init, candidate, cls);
    }
  }

  lemma {:induction false} CallsElsewhere(trace: seq<Call>, candidate: string, cls: string)
    requires forall c | c in trace :: c.candidate != candidate || c.cls != cls
    ensures CallsFor(trace, candidate, cls) == []
  {
    if trace != [] {
      CallsElsewhere(trace[..|trace| - 1], candidate, cls);
    }
  }

  lemma {:induction false} CallsAbout(trace: seq<Call>, candidate: string, cls: string)
    requires About(trace, candidate, cls)
    ensures CallsFor(trace, candidate, cls) == trace
  {
    if trace != [] {
      CallsAbout(trace[..|trace| - 1], candidate, cls);
    }
  }

  /** The calls it finds are calls of the trace, for that candidate and class. */
  lemma {:induction false} CallsForMeans(trace: seq<Call>, candidate: string, cls: string, c: Call)
    ensures c in CallsFor(trace, candidate, cls) <==> c in trace && c.candidate == candidate && c.cls == cls
  {
    if trace != [] {
      CallsForMeans(trace[..|trace| - 1], candidate, cls, c);
      assert trace == trace[..|trace| - 1] + [trace[|trace| - 1]];
    }
  }

  function Flat<T>(blocks: seq<seq<T>>): seq<T> {
    if blocks == [] then [] else Flat(blocks[..|blocks| - 1]) + blocks[|blocks| - 1]
  }

  lemma FlatNext<T>(blocks: seq<seq<T>>, block: seq<T>)
    ensures Flat(blocks + [block]) == Flat(blocks) + block
  {
    assert (blocks + [block])[..|blocks|] == blocks;
  }

  lemma {:induction false} FlatAppend<T>(a: seq<seq<T>>, b: seq<seq<T>>)
    ensures Flat(a + b) == Flat(a) + Flat(b)
    decreases |b|
  {
    if b == [] {
      assert a + b == a;
    } else {
      var init, last := b[..|b| - 1], b[|b| - 1];
      assert a + b == (a + init) + [last];
      FlatNext(a + init, last);
      FlatAppend(a, init);
    }
  }

  lemma NoBlocks<T>()
    ensures Flat<T>([]) == []
  {
  }

  /** One attempt on a case, repeated while its result is transient and at most `retries` times. */
  predicate Retried(block: seq<Call>, caseId: string, stage: Stage, retries: nat) {
    && 1 <= |block| <= retries + 1 && AtCase(block, caseId) && OnlyStage(block, stage)
    && (forall k | 0 <= k < |block| - 1 :: block[k].result.transient)
    && (block[|block| - 1].result.transient ==> |block| == retries + 1)
  }

  /** The attempt never got a result that can be read. */
  predicate Unread(block: seq<Call>) {
    block != [] && block[|block| - 1].result.transient
  }

  /** The attempt's result is that the screen fired. */
  predicate Fires(block: seq<Call>) {
    block != [] && !block[|block| - 1].result.transient && block[|block| - 1].result.triggered
  }

  /** One smoke call on a case, and one more exactly when the first produced nothing. */
  predicate SmokeRan(calls: seq<Call>, caseId: string) {
    && 1 <= |calls| <= 2 && AtCase(calls, caseId) && OnlyStage(calls, Smoke)
    && (|calls| == 2 <==> !calls[0].result.produced)
  }

  /** One attempt per case in case order, one retry each, up to the first that fires; without one, on every case. */
  predicate ScreenRan(screen: seq<seq<Call>>, cases: seq<BatteryCase>, fired: bool) {
    && |screen| <= |cases| && (forall j | 0 <= j < |screen| :: Retried(screen[j], cases[j].caseId, Screen, 1))
    && (forall j | 0 <= j < |screen| - 1 :: !Fires(screen[j]))
    && (fired <==> screen != [] && Fires(screen[|screen| - 1]))
    && (!fired ==> |screen| == |cases|)
  }

  /** `n` attempts on one case, with three retries each. */
  predicate Repeated(blocks: seq<seq<Call>>, caseId: string, n: int) {
    |blocks| == Repeats(n) && forall r | 0 <= r < |blocks| :: Retried(blocks[r], caseId, Bayes, 3)
  }

  /** `n` attempts on every case, in case order. */
  ghost predicate BayesRan(calls: seq<Call>, cases: seq<BatteryCase>, n: int) {
    exists bayes: seq<seq<seq<Call>>> :: calls == Flat(Flat(bayes)) && BayesBlocks(bayes, cases, n)
  }

  predicate BayesBlocks(bayes: seq<seq<seq<Call>>>, cases: seq<BatteryCase>, n: int) {
    |bayes| == |cases| && forall k | 0 <= k < |cases| :: Repeated(bayes[k], cases[k].caseId, n)
  }

  /** The smoke calls and the screen attempts of one cell, and what the cell says of them. */
  predicate CellBlocks(c: StageResult, smoke: seq<Call>, screen: seq<seq<Call>>, cases: seq<BatteryCase>)
    reads c`smoke, c`triggered, c`unavailable
    requires cases != []
  {
    && SmokeRan(smoke, cases[0].caseId)
    && var last := smoke[|smoke| - 1].result;
    && c.smoke == (if last.produced then SmokePass else if last.infra then SmokeInfra else PlumbingFail)
    && (if c.smoke != SmokePass then screen == [] && !c.triggered && !c.unavailable
        else
          && ScreenRan(screen, cases, c.triggered)
          && (c.unavailable <==> !c.triggered && exists j | 0 <= j < |screen| :: Unread(screen[j])))
  }

  /** The phase A calls of one cell are its smoke calls and its screen attempts, and nothing else. */
  ghost predicate CellScreened(c: StageResult, calls: seq<Call>, cases: seq<BatteryCase>)
    reads c`smoke, c`triggered, c`unavailable
    requires cases != []
  {
    exists smoke, screen :: calls == smoke + Flat(screen) && CellBlocks(c, smoke, screen, cases)
  }

  /** All calls of one cell: those of phase A, and behind them the Bayes attempts if the screen fired. */
  ghost predicate CellRan(c: StageResult, calls: seq<Call>, cases: seq<BatteryCase>, n: int)
    reads c`smoke, c`triggered, c`unavailable
    requires cases != []
  {
    exists k | 0 <= k <= |calls| ::
      CellScreened(c, calls[..k], cases)
      && if c.triggered then BayesRan(calls[k..], cases, n) else calls[k..] == []
  }

  predicate OnlyStage(trace: seq<Call>, s: Stage) {
    forall c | c in trace :: c.stage == s
  }

  predicate NoBayes(trace: seq<Call>) {
    forall c | c in trace :: c.stage != Bayes
  }

  predicate AtCase(calls: seq<Call>, caseId: string) {
    forall c | c in calls :: c.caseId == caseId
  }

  /** The call is for one of the cases, a smoke call for the first. */
  predicate CallsCase(c: Call, cases: seq<BatteryCase>) {
    (exists b :: b in cases && b.caseId == c.caseId) && (c.stage == Smoke ==> c.caseId == cases[0].caseId)
  }

  predicate OfCases(calls: seq<Call>, cases: seq<BatteryCase>) {
    forall c | c in calls :: CallsCase(c, cases)
  }

  lemma CaseCalls(calls: seq<Call>, cases: seq<BatteryCase>, i: nat)
    requires i < |cases| && AtCase(calls, cases[i].caseId)
    requires i == 0 || forall c | c in calls :: c.stage != Smoke
    ensures OfCases(calls, cases)
  {
    forall c | c in calls ensures CallsCase(c, cases) {
      assert cases[i] in cases;
    }
  }

  /** The calls carry the results of consecutive attempts, the first of them the `at`-th. */
  ghost predicate Follows(calls: seq<Call>, attempt: nat -> AttemptResult, at: nat) {
    forall k: nat | k < |calls| :: calls[k].result == attempt(at + k)
  }

  lemma FollowsOn(calls: seq<Call>, more: seq<Call>, attempt: nat -> AttemptResult, at: nat)
    requires Follows(calls, attempt, at) && Follows(more, attempt, at + |calls|)
    ensures Follows(calls + more, attempt, at)
  {
    forall k: nat | k < |calls + more| ensures (calls + more)[k].result == attempt(at + k) {
      if k >= |calls| {
        assert (calls + more)[k] == more[k - |calls|];
      }
    }
  }

  lemma NoneFollow(attempt: nat -> AttemptResult, at: nat)
    ensures Follows([], attempt, at)
  {
  }

  /** All calls but the last were transient, and all are like it but for the result. */
  predicate Trying(calls: seq<Call>, last: Call) {
    && calls != [] && calls[|calls| - 1] == last && (forall k | 0 <= k < |calls| - 1 :: calls[k].result.transient)
    && About(calls, last.candidate, last.cls) && AtCase(calls, last.caseId) && OnlyStage(calls, last.stage)
  }

  lemma OneTry(call: Call, attempt: nat -> AttemptResult, at: nat)
    ensures Trying([call], call)
    ensures call.result == attempt(at) ==> Follows([call], attempt, at)
  {
  }

  lemma OneMoreTry(calls: seq<Call>, last: Call, next: Call, attempt: nat -> AttemptResult, at: nat)
    requires Trying(calls, last) && last.result.transient && Follows(calls, attempt, at)
    requires next == last.(result := next.result) && next.result == attempt(at + |calls|)
    ensures Trying(calls + [next], next) && Follows(calls + [next], attempt, at)
  {
  }

  lemma TriedIsRetried(calls: seq<Call>, last: Call, cap: nat)
    requires Trying(calls, last) && |calls| <= cap + 1 && (last.result.transient ==> |calls| == cap + 1)
    ensures Retried(calls, last.caseId, last.stage, cap) && About(calls, last.candidate, last.cls)
    ensures OnlyStage(calls, last.stage) && calls != [] && calls[|calls| - 1] == last
  {
  }

  lemma TransientTally(c: Call)
    requires c.result.transient && c.stage != Smoke
    ensures TallyOne(c) == Tally(1, 0, 0.0, if c.stage == Bayes then 1 else 0, 0, 0, 0)
  {
  }

  lemma ReadTally(c: Call)
    requires c.stage != Smoke
    ensures var r := c.result;
      TallyOne(c) == if r.transient then Tally(1, 0, 0.0, if c.stage == Bayes then 1 else 0, 0, 0, 0)
        else Tally(0, r.tokens, r.seconds, if c.stage == Bayes then 1 else 0, if c.stage == Bayes then 1 else 0,
                   if c.stage == Bayes && r.verified then 1 else 0, if c.stage == Screen && r.triggered then 1 else 0)
  {
  }

  /** `_screen_attempt` and `_bayes_attempt`: one attempt with bounded retries of transient results. */
  method RetriedAttempt(attempt: nat -> AttemptResult, at: nat, caseId: string, stage: Stage, cap: nat,
                        out: StageResult)
    returns (res: AttemptResult, calls: seq<Call>)
    requires stage != Smoke
    modifies out`transientFailures
    ensures 1 <= |calls| <= cap + 1 && About(calls, out.candidate, out.cls) && OnlyStage(calls, stage)
    ensures var t := TallyFor(calls, out.candidate, out.cls);
      && out.transientFailures == old(out.transientFailures) + t.transients
      && t.tokens == (if res.transient then 0 else res.tokens)
      && t.seconds == (if res.transient then 0.0 else res.seconds)
      && t.bayes == (if stage == Bayes then |calls| else 0)
      && t.trials == (if stage == Bayes && !res.transient then 1 else 0)
      && t.verified == (if stage == Bayes && !res.transient && res.verified then 1 else 0)
      && t.fired == (if stage == Screen && !res.transient && res.triggered then 1 else 0)
    ensures TallyFor(calls, out.candidate, out.cls).transients == (if res.transient then cap + 1 else |calls| - 1)
    ensures res.transient ==> |calls| == cap + 1
    ensures Follows(calls, attempt, at) && Retried(calls, caseId, stage, cap) && res == calls[|calls| - 1].result
  {
    hide TallyFor, TallyOne, Follows, Trying;
    res := attempt(at);
    var tries := 0;
    var call := Call(out.candidate, out.cls, caseId, stage, res);
    calls := [call];
    TallySingle(call);
    OneTry(call, attempt, at);
    ghost var before := ZERO;
    while res.transient && tries < cap
      invariant 0 <= tries <= cap && |calls| == tries + 1 && Trying(calls, call) && Follows(calls, attempt, at)
      invariant call == Call(out.candidate, out.cls, caseId, stage, res)
      invariant TallyFor(calls, out.candidate, out.cls) == before.Plus(TallyOne(call))
      invariant before == Tally(tries, 0, 0.0, if stage == Bayes then tries else 0, 0, 0, 0)
      invariant out.transientFailures == old(out.transientFailures) + tries
    {
      TransientTally(call);
      out.transientFailures := out.transientFailures + 1;
      tries := tries + 1;
      before := TallyFor(calls, out.candidate, out.cls);
      res := attempt(at + tries);
      var next := Call(out.candidate, out.cls, caseId, stage, res);
      TallyNext(calls, next);
      OneMoreTry(calls, call, next, attempt, at);
      call, calls := next, calls + [next];
    }
    TriedIsRetried(calls, call, cap);
    ReadTally(call);
    if res.transient {
      out.transientFailures := out.transientFailures + 1;
    }
  }

  /** Do the running totals of a cell and its cost record equal the tally? */
  ghost predicate Books(c: StageResult, k: CostLatency, t: Tally)
    reads c, k
  {
    c.transientFailures == t.transients && k.tokens == t.tokens && k.seconds == t.seconds
  }

  /** Stage 1: one smoke attempt and one retry. */
  method SmokeStage(attempt: nat -> AttemptResult, at: nat, caseId: string, cell: StageResult, cl: CostLatency)
    returns (ok: bool, calls: seq<Call>)
    modifies cell`smoke, cl`tokens, cl`seconds
    ensures About(calls, cell.candidate, cell.cls) && OnlyStage(calls, Smoke) && 1 <= |calls| <= 2
    ensures Follows(calls, attempt, at) && SmokeRan(calls, caseId)
    ensures ok <==> calls[|calls| - 1].result.produced
    ensures !ok ==> |calls| == 2 && cell.smoke in {PlumbingFail, SmokeInfra}
    ensures !ok ==> (cell.smoke == SmokeInfra <==> calls[1].result.infra)
    ensures ok ==> cell.smoke == old(cell.smoke)
    ensures var t := TallyFor(calls, cell.candidate, cell.cls);
      && t == Tally(0, t.tokens, t.seconds, 0, 0, 0, 0)
      && cl.tokens == old(cl.tokens) + t.tokens && cl.seconds == old(cl.seconds) + t.seconds
  {
    hide TallyFor;
    var smoke := attempt(at);
    calls := [Call(cell.candidate, cell.cls, caseId, Smoke, smoke)];
    TallySingle(calls[0]);
    cl.Accrue(smoke);
    if !smoke.produced {
      smoke := attempt(at + 1);
      var retry := Call(cell.candidate, cell.cls, caseId, Smoke, smoke);
      TallyNext(calls, retry);
      calls := calls + [retry];
      cl.Accrue(smoke);
    }
    ok := smoke.produced;
    if !ok {
      cell.smoke := if smoke.infra then SmokeInfra else PlumbingFail;
    }
  }

  /** Stage 2: the screen over the class's cases, up to the first that triggers. */
  method ScreenStage(attempt: nat -> AttemptResult, at: nat, cases: seq<BatteryCase>, cell: StageResult,
                     cl: CostLatency)
    returns (triggered: bool, unresolved: bool, calls: seq<Call>, ghost screen: seq<seq<Call>>)
    modifies cell`transientFailures, cl`tokens, cl`seconds
    ensures About(calls, cell.candidate, cell.cls) && OnlyStage(calls, Screen) && Follows(calls, attempt, at)
    ensures OfCases(calls, cases)
    ensures calls == Flat(screen) && ScreenRan(screen, cases, triggered)
    ensures unresolved <==> exists j | 0 <= j < |screen| :: Unread(screen[j])
    ensures var t := TallyFor(calls, cell.candidate, cell.cls);
      && cell.transientFailures == old(cell.transientFailures) + t.transients
      && cl.tokens == old(cl.tokens) + t.tokens && cl.seconds == old(cl.seconds) + t.seconds
      && t.bayes == 0 && t.trials == 0 && t.verified == 0
      && (triggered <==> t.fired > 0)
      && (if unresolved then t.transients > SCREEN_TRANSIENT_RETRY else t.transients <= |cases|)
  {
    hide TallyFor, Follows, CallsCase;
    hide Flat;
    triggered, unresolved, calls, screen := false, false, [], [];
    NoBlocks<Call>();
    NoCalls(cell.candidate, cell.cls);
    NoneFollow(attempt, at);
    var i := 0;
    while i < |cases|
      invariant 0 <= i <= |cases| && !triggered
      invariant About(calls, cell.candidate, cell.cls) && OnlyStage(calls, Screen) && Follows(calls, attempt, at)
      invariant OfCases(calls, cases)
      invariant calls == Flat(screen) && ScreenedFor(screen, cases, i, unresolved)
      invariant cell.transientFailures
        == old(cell.transientFailures) + TallyFor(calls, cell.candidate, cell.cls).transients
      invariant cl.tokens == old(cl.tokens) + TallyFor(calls, cell.candidate, cell.cls).tokens
      invariant cl.seconds == old(cl.seconds) + TallyFor(calls, cell.candidate, cell.cls).seconds
      invariant NothingJudged(TallyFor(calls, cell.candidate, cell.cls), i, unresolved)
    {
      var scr, more := RetriedAttempt(attempt, at + |calls|, cases[i].caseId, Screen, SCREEN_TRANSIENT_RETRY, cell);
      CaseCalls(more, cases, i);
      FollowsOn(calls, more, attempt, at);
      TallyAppend(calls, more, cell.candidate, cell.cls);
      FlatNext(screen, more);
      OneMoreScreened(screen, cases, i, unresolved, more);
      calls, screen := calls + more, screen + [more];
      i := i + 1;
      if scr.transient {
        unresolved := true;
        continue;
      }
      cl.Accrue(scr);
      if scr.triggered {
        triggered := true;
        break;
      }
    }
  }

  /** The first `n` cases were screened without any firing; `unread` tells whether some attempt was never read. */
  predicate ScreenedFor(screen: seq<seq<Call>>, cases: seq<BatteryCase>, n: nat, unread: bool) {
    && |screen| == n <= |cases|
    && (forall j | 0 <= j < n :: Retried(screen[j], cases[j].caseId, Screen, 1) && !Fires(screen[j]))
    && (unread <==> exists j | 0 <= j < n :: Unread(screen[j]))
  }

  lemma OneMoreScreened(screen: seq<seq<Call>>, cases: seq<BatteryCase>, n: nat, unread: bool, more: seq<Call>)
    requires ScreenedFor(screen, cases, n, unread) && n < |cases| && Retried(more, cases[n].caseId, Screen, 1)
    ensures !Fires(more) ==> ScreenedFor(screen + [more], cases, n + 1, unread || Unread(more))
    ensures Fires(more) ==> ScreenRan(screen + [more], cases, true)
    ensures Fires(more) ==> (unread <==> exists j | 0 <= j < n + 1 :: Unread((screen + [more])[j]))
  {
    hide Retried, Fires, Unread;
    var longer := screen + [more];
    assert forall j | 0 <= j < n :: longer[j] == screen[j];
    assert longer[n] == more;
    FiringIsRead(more);
    if unread {
      var j :| 0 <= j < n && Unread(screen[j]);
      assert Unread(longer[j]);
    }
  }

  lemma FiringIsRead(block: seq<Call>)
    ensures Fires(block) ==> !Unread(block)
  {
  }

  predicate NothingJudged(t: Tally, screened: nat, unresolved: bool) {
    && t.bayes == 0 && t.trials == 0 && t.verified == 0 && t.fired == 0
    && (if unresolved then t.transients > SCREEN_TRANSIENT_RETRY else t.transients <= screened)
  }

  /** Phase A for one fresh cell. Only a screen that fired makes a survivor, and a screen in which some case never
      resolved and none fired is `unavailable`, not a miss. */
  method ScreenCell(attempt: nat -> AttemptResult, at: nat, cases: seq<BatteryCase>, cell: StageResult, cl: CostLatency)
    returns (calls: seq<Call>)
    requires cases != [] && Books(cell, cl, ZERO) && !cell.triggered && !cell.unavailable && cell.smoke == SmokePass
    requires cell.interval == None && cell.verifiedK == 0 && cl.passes == 0
    requires cl.candidate == cell.candidate && cl.cls == cell.cls
    modifies cell`smoke, cell`triggered, cell`unavailable, cell`transientFailures, cl`tokens, cl`seconds
    ensures About(calls, cell.candidate, cell.cls) && NoBayes(calls) && Follows(calls, attempt, at)
    ensures OfCases(calls, cases) && CellScreened(cell, calls, cases)
    ensures Screened(cell, cl, TallyFor(calls, cell.candidate, cell.cls), old(cell.n))
    ensures cell.smoke != SmokePass ==> OnlyStage(calls, Smoke) && !cell.triggered && !cell.unavailable
    ensures cell.unavailable ==>
      !cell.triggered && TallyFor(calls, cell.candidate, cell.cls).transients > SCREEN_TRANSIENT_RETRY
    ensures !cell.triggered && cell.smoke == SmokePass && !cell.unavailable ==>
      TallyFor(calls, cell.candidate, cell.cls).transients <= |cases|
  {
    hide TallyFor, Follows, CallsCase, Flat, SmokeRan, ScreenRan, Unread, CellScreened;
    var ok;
    ok, calls := SmokeStage(attempt, at, cases[0].caseId, cell, cl);
    ghost var smoke := calls;
    SmokeIsRead(smoke, cases[0].caseId);
    CaseCalls(calls, cases, 0);
    if !ok {
      NoBlocks<Call>();
      CellIsScreened(cell, smoke, [], cases);
      assert smoke + [] == calls;
      return;
    }
    var triggered, unresolved, more;
    ghost var screen;
    triggered, unresolved, more, screen := ScreenStage(attempt, at + |calls|, cases, cell, cl);
    FollowsOn(calls, more, attempt, at);
    TallyAppend(calls, more, cell.candidate, cell.cls);
    calls := calls + more;
    cell.triggered := triggered;
    if !triggered && unresolved {
      cell.unavailable := true;
    }
    CellIsScreened(cell, smoke, screen, cases);
  }

  lemma CellIsScreened(c: StageResult, smoke: seq<Call>, screen: seq<seq<Call>>, cases: seq<BatteryCase>)
    requires cases != [] && CellBlocks(c, smoke, screen, cases)
    ensures CellScreened(c, smoke + Flat(screen), cases)
  {
  }

  lemma SmokeIsRead(smoke: seq<Call>, caseId: string)
    requires SmokeRan(smoke, caseId)
    ensures smoke != [] && AtCase(smoke, caseId)
  {
  }

  lemma NoCalls(candidate: string, cls: string)
    ensures TallyFor([], candidate, cls) == ZERO
  {
  }

  function Repeats(n: int): nat {
    if n < 0 then 0 else n
  }

  /** `cases` rows of `n` repetitions: `range(n)` is empty for a negative `n`. */
  function Planned(cases: nat, n: int): nat {
    if cases == 0 then 0 else Planned(cases - 1, n) + Repeats(n)
  }

  lemma {:induction false} PlannedIsProduct(cases: nat, n: int)
    ensures Planned(cases, n) == cases * Repeats(n)
  {
    if cases > 0 {
      PlannedIsProduct(cases - 1, n);
    }
  }

  predicate RepeatedFor(blocks: seq<seq<Call>>, caseId: string, j: nat) {
    |blocks| == j && forall r | 0 <= r < j :: Retried(blocks[r], caseId, Bayes, 3)
  }

  lemma NothingRepeated(caseId: string)
    ensures RepeatedFor([], caseId, 0) && AtCase([], caseId)
  {
  }

  lemma OneMoreRepeat(calls: seq<Call>, blocks: seq<seq<Call>>, caseId: string, j: nat, more: seq<Call>)
    requires AtCase(calls, caseId) && RepeatedFor(blocks, caseId, j) && Retried(more, caseId, Bayes, 3)
    ensures AtCase(calls + more, caseId) && RepeatedFor(blocks + [more], caseId, j + 1)
  {
  }

  lemma AllRepeated(blocks: seq<seq<Call>>, caseId: string, n: int)
    requires RepeatedFor(blocks, caseId, Repeats(n))
    ensures Repeated(blocks, caseId, n)
  {
  }

  /** The inner loop of phase B: `n` attempts on one case. */
  method BayesCase(attempt: nat -> AttemptResult, at: nat, caseId: string, n: int, cell: StageResult, cl: CostLatency)
    returns (verifiedK: nat, trials: nat, calls: seq<Call>, ghost blocks: seq<seq<Call>>)
    modifies cell`transientFailures, cl`tokens, cl`seconds
    ensures About(calls, cell.candidate, cell.cls) && OnlyStage(calls, Bayes) && Follows(calls, attempt, at)
    ensures AtCase(calls, caseId)
    ensures calls == Flat(blocks) && Repeated(blocks, caseId, n)
    ensures var t := TallyFor(calls, cell.candidate, cell.cls);
      && BayesProgress(t, Repeats(n), verifiedK, trials)
      && cell.transientFailures == old(cell.transientFailures) + t.transients
      && cl.tokens == old(cl.tokens) + t.tokens && cl.seconds == old(cl.seconds) + t.seconds
  {
    hide TallyFor, Follows, CallsCase, Flat, Retried, AtCase, RepeatedFor;
    verifiedK, trials, calls, blocks := 0, 0, [], [];
    NothingRepeated(caseId);
    NoBlocks<Call>();
    NoCalls(cell.candidate, cell.cls);
    NoneFollow(attempt, at);
    var j := 0;
    while j < n
      invariant 0 <= j && (j <= n || j == 0)
      invariant About(calls, cell.candidate, cell.cls) && OnlyStage(calls, Bayes) && Follows(calls, attempt, at)
      invariant AtCase(calls, caseId)
      invariant calls == Flat(blocks) && RepeatedFor(blocks, caseId, j)
      invariant BayesProgress(TallyFor(calls, cell.candidate, cell.cls), j, verifiedK, trials)
      invariant cell.transientFailures
        == old(cell.transientFailures) + TallyFor(calls, cell.candidate, cell.cls).transients
      invariant cl.tokens == old(cl.tokens) + TallyFor(calls, cell.candidate, cell.cls).tokens
      invariant cl.seconds == old(cl.seconds) + TallyFor(calls, cell.candidate, cell.cls).seconds
    {
      var res, more := RetriedAttempt(attempt, at + |calls|, caseId, Bayes, TRANSIENT_RETRY_CAP, cell);
      FollowsOn(calls, more, attempt, at);
      TallyAppend(calls, more, cell.candidate, cell.cls);
      FlatNext(blocks, more);
      OneMoreRepeat(calls, blocks, caseId, j, more);
      calls, blocks := calls + more, blocks + [more];
      j := j + 1;
      if res.transient {
        continue;
      }
      cl.Accrue(res);
      trials := trials + 1;
      if res.verified {
        verifiedK := verifiedK + 1;
      }
    }
    AllRepeated(blocks, caseId, n);
  }

  /** Phase B for one survivor: `n` independent attempts on every case of the class. */
  method BayesCell(attempt: nat -> AttemptResult, at: nat, cases: seq<BatteryCase>, n: int, cell: StageResult,
                   cl: CostLatency, beta: Posterior, mass: real)
    returns (calls: seq<Call>)
    modifies cell`transientFailures, cell`verifiedK, cell`n, cell`interval, cl`tokens, cl`seconds, cl`passes
    ensures About(calls, cell.candidate, cell.cls) && OnlyStage(calls, Bayes) && Follows(calls, attempt, at)
    ensures OfCases(calls, cases) && BayesRan(calls, cases, n)
    ensures var t := TallyFor(calls, cell.candidate, cell.cls);
      && BayesProgress(t, Planned(|cases|, n), cell.verifiedK, t.trials)
      && cell.transientFailures == old(cell.transientFailures) + t.transients
      && cl.tokens == old(cl.tokens) + t.tokens && cl.seconds == old(cl.seconds) + t.seconds
      && cell.n == t.trials && cl.passes == t.verified
      && cell.interval == CredibleInterval(beta, t.verified, t.trials, mass)
  {
    hide TallyFor, CredibleInterval, Planned, Follows, CallsCase, Flat, Repeated;
    var verifiedK, trials := 0, 0;
    calls := [];
    ghost var bayes: seq<seq<seq<Call>>> := [];
    NoBlocks<seq<Call>>();
    NoBlocks<Call>();
    NoCalls(cell.candidate, cell.cls);
    NoneFollow(attempt, at);
    PlannedStep(0, n);
    var i := 0;
    while i < |cases|
      invariant 0 <= i <= |cases|
      invariant About(calls, cell.candidate, cell.cls) && OnlyStage(calls, Bayes) && Follows(calls, attempt, at)
      invariant OfCases(calls, cases)
      invariant calls == Flat(Flat(bayes)) && |bayes| == i
      invariant forall k | 0 <= k < i :: Repeated(bayes[k], cases[k].caseId, n)
      invariant BayesProgress(TallyFor(calls, cell.candidate, cell.cls), Planned(i, n), verifiedK, trials)
      invariant cell.transientFailures
        == old(cell.transientFailures) + TallyFor(calls, cell.candidate, cell.cls).transients
      invariant cl.tokens == old(cl.tokens) + TallyFor(calls, cell.candidate, cell.cls).tokens
      invariant cl.seconds == old(cl.seconds) + TallyFor(calls, cell.candidate, cell.cls).seconds
    {
      var k, m, more;
      ghost var blocks;
      k, m, more, blocks := BayesCase(attempt, at + |calls|, cases[i].caseId, n, cell, cl);
      CaseCalls(more, cases, i);
      FollowsOn(calls, more, attempt, at);
      TallyAppend(calls, more, cell.candidate, cell.cls);
      PlannedStep(i, n);
      FlatNext(bayes, blocks);
      FlatAppend(Flat(bayes), blocks);
      bayes := bayes + [blocks];
      calls, verifiedK, trials, i := calls + more, verifiedK + k, trials + m, i + 1;
    }
    assert BayesBlocks(bayes, cases, n);
    cell.verifiedK, cell.n := verifiedK, trials;
    cell.interval := CredibleInterval(beta, verifiedK, trials, mass);
    cl.passes := verifiedK;
  }

  lemma PlannedStep(i: nat, n: int)
    ensures Planned(0, n) == 0 && Planned(i + 1, n) == Planned(i, n) + Repeats(n)
  {
  }

  /** After `done` repetitions: one to four (one and TRANSIENT_RETRY_CAP retries) calls each, every trial one
      non-transient result. */
  predicate BayesProgress(t: Tally, done: nat, verifiedK: nat, trials: nat) {
    && done <= t.bayes <= 4 * done
    && verifiedK == t.verified <= t.trials == trials <= done && t.fired == 0
  }

  /** What the books of one cell say once its class is done: nothing is spent on Bayes unless the screen fired,
      and a survivor's numbers are exactly what its ledger adds up to. */
  ghost predicate Reported(c: StageResult, k: CostLatency, t: Tally, cases: nat, n: int, price: real, beta: Posterior,
                           mass: real)
    reads c, k
  {
    && Honest(c) && k.candidate == c.candidate && k.cls == c.cls && Books(c, k, t)
    && (c.triggered <==> t.fired > 0)
    && (!c.triggered ==> t.bayes == 0 && c.interval == None && c.verifiedK == 0 && c.n == n && k.passes == 0)
    && (c.triggered ==>
          && Planned(cases, n) <= t.bayes <= 4 * Planned(cases, n)
          && c.verifiedK == t.verified && c.n == t.trials && t.verified <= t.trials <= Planned(cases, n)
          && c.interval == CredibleInterval(beta, t.verified, t.trials, mass) && k.passes == t.verified)
    && k.usdPerCase == t.tokens as real / 1000.0 * price
    && k.usdPerPass == (if k.passes == 0 then None else Some(k.usdPerCase / k.passes as real))
  }

  /** A plumbing failure or an unresolved screen is never a verdict about the candidate. */
  ghost predicate Honest(c: StageResult)
    reads c
  {
    (c.unavailable ==> !c.triggered && c.smoke == SmokePass) && (c.smoke != SmokePass ==> !c.triggered)
  }

  /** The state between the two phases. */
  ghost predicate Screened(c: StageResult, k: CostLatency, t: Tally, n: int)
    reads c, k
  {
    && Honest(c) && k.candidate == c.candidate && k.cls == c.cls && Books(c, k, t)
    && t.bayes == 0 && t.trials == 0 && t.verified == 0
    && (c.triggered <==> t.fired > 0)
    && c.interval == None && c.verifiedK == 0 && c.n == n && k.passes == 0
  }

  /** The state after phase B, before the prices are filled in. */
  ghost predicate Judged(c: StageResult, k: CostLatency, t: Tally, cases: nat, n: int, beta: Posterior, mass: real)
    reads c, k
  {
    && Honest(c) && k.candidate == c.candidate && k.cls == c.cls && Books(c, k, t)
    && c.triggered && t.fired > 0
    && Planned(cases, n) <= t.bayes <= 4 * Planned(cases, n)
    && c.verifiedK == t.verified && c.n == t.trials && t.verified <= t.trials <= Planned(cases, n)
    && c.interval == CredibleInterval(beta, t.verified, t.trials, mass) && k.passes == t.verified
  }

  predicate DistinctIds(cs: seq<Candidate>) {
    forall i, j | 0 <= i < j < |cs| :: cs[i].id != cs[j].id
  }

  /** No call before the last phase-A call of a class is a Bayes call. */
  predicate ScreenBeforeBayes(trace: seq<Call>) {
    forall i, j | 0 <= i < j < |trace| && trace[i].cls == trace[j].cls ::
      trace[i].stage == Bayes ==> trace[j].stage == Bayes
  }

  /** Calls about one more candidate leave the tallies of the others as they were. */
  lemma TraceGrows(trace: seq<Call>, calls: seq<Call>, active: seq<Candidate>, i: nat, cls: string)
    requires DistinctIds(active) && i < |active| && About(calls, active[i].id, cls)
    requires forall c | c in trace :: c.candidate in (set a | a in active[..i] :: a.id)
    ensures forall x | 0 <= x < i :: TallyFor(trace + calls, active[x].id, cls) == TallyFor(trace, active[x].id, cls)
    ensures TallyFor(trace + calls, active[i].id, cls) == TallyFor(calls, active[i].id, cls)
  {
    forall x | 0 <= x < i ensures TallyFor(trace + calls, active[x].id, cls) == TallyFor(trace, active[x].id, cls) {
      TallyAppend(trace, calls, active[x].id, cls);
      TallyElsewhere(calls, active[x].id, cls);
      PlusLaws(TallyFor(trace, active[x].id, cls), ZERO, ZERO);
    }
    TallyAppend(trace, calls, active[i].id, cls);
    TallyElsewhere(trace, active[i].id, cls);
    PlusLaws(TallyFor(calls, active[i].id, cls), ZERO, ZERO);
  }

  /** The same of the calls themselves. */
  lemma CallsGrow(trace: seq<Call>, calls: seq<Call>, active: seq<Candidate>, i: nat, cls: string)
    requires DistinctIds(active) && i < |active| && About(calls, active[i].id, cls)
    ensures forall x | 0 <= x < |active| && x != i ::
      CallsFor(trace + calls, active[x].id, cls) == CallsFor(trace, active[x].id, cls)
    ensures CallsFor(trace + calls, active[i].id, cls) == CallsFor(trace, active[i].id, cls) + calls
  {
    forall x | 0 <= x < |active| && x != i
      ensures CallsFor(trace + calls, active[x].id, cls) == CallsFor(trace, active[x].id, cls)
    {
      CallsAppend(trace, calls, active[x].id, cls);
      CallsElsewhere(calls, active[x].id, cls);
    }
    CallsAppend(trace, calls, active[i].id, cls);
    CallsAbout(calls, active[i].id, cls);
  }

  // ---- cheap first -------------------------------------------------------

  /** Within a class, and within a phase of it, no candidate is called once a later one has been. */
  predicate InTurn(trace: seq<Call>, order: seq<Candidate>) {
    forall i, j, p, q | 0 <= i < j < |trace| && 0 <= q < p < |order| ::
      trace[i].candidate == order[p].id && trace[j].candidate == order[q].id ==>
        trace[i].cls != trace[j].cls || (trace[i].stage == Bayes <==> trace[j].stage != Bayes)
  }

  /** The calls are of the first `n` candidates. */
  predicate AmongFirst(calls: seq<Call>, order: seq<Candidate>, n: nat)
    requires n <= |order|
  {
    forall c | c in calls :: exists p :: 0 <= p < n && c.candidate == order[p].id
  }

  lemma NothingInTurn(order: seq<Candidate>)
    ensures InTurn([], order) && AmongFirst([], order, 0) && SurvivorsInTurn([], order, []) && ClassByClass([])
  {
  }

  lemma MoreCandidates(calls: seq<Call>, order: seq<Candidate>, n: nat, m: nat)
    requires n <= m <= |order| && AmongFirst(calls, order, n)
    ensures AmongFirst(calls, order, m)
  {
  }

  lemma NextInTurn(trace: seq<Call>, calls: seq<Call>, order: seq<Candidate>, n: nat, cls: string)
    requires DistinctIds(order) && n < |order| && About(calls, order[n].id, cls)
    requires InTurn(trace, order) && AmongFirst(trace, order, n)
    ensures InTurn(trace + calls, order) && AmongFirst(trace + calls, order, n + 1)
  {
    var all := trace + calls;
    forall c | c in all ensures exists p :: 0 <= p < n + 1 && c.candidate == order[p].id {
      if c in calls {
        assert c.candidate == order[n].id;
      } else {
        assert c in trace;
      }
    }
    forall i, j, p, q | 0 <= i < j < |all| && 0 <= q < p < |order|
                        && all[i].candidate == order[p].id && all[j].candidate == order[q].id
      ensures all[i].cls != all[j].cls || (all[i].stage == Bayes <==> all[j].stage != Bayes)
    {
      if j < |trace| {
        assert all[i] == trace[i] && all[j] == trace[j];
      } else {
        assert false;
      }
    }
  }

  /** The calls are in turn, and of no candidate behind the last of those survivors. */
  predicate SurvivorsInTurn(calls: seq<Call>, order: seq<Candidate>, survivors: seq<nat>) {
    && InTurn(calls, order)
    && if survivors == [] then AmongFirst(calls, order, 0)
       else survivors[|survivors| - 1] < |order| && AmongFirst(calls, order, survivors[|survivors| - 1] + 1)
  }

  lemma TheyAreInTurn(calls: seq<Call>, order: seq<Candidate>, survivors: seq<nat>)
    requires SurvivorsInTurn(calls, order, survivors)
    ensures InTurn(calls, order)
  {
    hide InTurn, AmongFirst;
  }

  lemma NextSurvivor(judged: seq<Call>, calls: seq<Call>, order: seq<Candidate>, survivors: seq<nat>, s: nat,
                     cls: string)
    requires SurvivorsInTurn(judged, order, survivors) && DistinctIds(order)
    requires s < |order| && About(calls, order[s].id, cls) && (survivors != [] ==> survivors[|survivors| - 1] < s)
    ensures SurvivorsInTurn(judged + calls, order, survivors + [s])
  {
    hide InTurn, AmongFirst;
    MoreCandidates(judged, order, if survivors == [] then 0 else survivors[|survivors| - 1] + 1, s);
    NextInTurn(judged, calls, order, s, cls);
  }

  /** Two parts are in turn together when no call of the one is of the same class and phase as one of the other. */
  lemma PartsInTurn(a: seq<Call>, b: seq<Call>, order: seq<Candidate>)
    requires InTurn(a, order) && InTurn(b, order)
    requires forall x, y | x in a && y in b :: x.cls != y.cls || (x.stage == Bayes <==> y.stage != Bayes)
    ensures InTurn(a + b, order)
  {
    var all := a + b;
    forall i, j, p, q | 0 <= i < j < |all| && 0 <= q < p < |order|
                        && all[i].candidate == order[p].id && all[j].candidate == order[q].id
      ensures all[i].cls != all[j].cls || (all[i].stage == Bayes <==> all[j].stage != Bayes)
    {
      if j < |a| {
        assert all[i] == a[i] && all[j] == a[j];
      } else if i >= |a| {
        assert all[i] == b[i - |a|] && all[j] == b[j - |a|];
      } else {
        assert all[i] in a && all[j] in b;
      }
    }
  }

  function CostRank(c: Candidate): nat {
    match c.costClass
    case "cheap" => 0
    case "mid" => 1
    case "expensive" => 2
    case _ => 3
  }

  /** `a` comes no later than `b`: its cost class is lower, or the same and its id no greater. */
  predicate NoLater(a: Candidate, b: Candidate) {
    CostRank(a) < CostRank(b) || (CostRank(a) == CostRank(b) && Leq(a.id, b.id))
  }

  lemma KeyMeans(a: Candidate, b: Candidate)
    ensures Leq(a.OrderKey(), b.OrderKey()) <==> NoLater(a, b)
  {
    assert a.OrderKey()[1..] == a.id && b.OrderKey()[1..] == b.id;
  }

  /** Cheap first: within a class and a phase of it, candidates are called in the order of cost class and id. */
  ghost predicate CheapFirst(trace: seq<Call>, candidates: seq<Candidate>) {
    forall i, j, a, b | 0 <= i < j < |trace| && a in candidates && b in candidates ::
      (&& trace[i].candidate == a.id && trace[j].candidate == b.id && trace[i].cls == trace[j].cls
       && (trace[i].stage == Bayes <==> trace[j].stage == Bayes)) ==>
        NoLater(a, b)
  }

  lemma SortedNoLater(order: seq<Candidate>, p: nat, q: nat)
    requires Sorting.SortedBy(order, (c: Candidate) => c.OrderKey()) && p <= q < |order|
    ensures NoLater(order[p], order[q])
  {
    hide Leq, NoLater;
    var key := (c: Candidate) => c.OrderKey();
    LeqTotal(key(order[p]), key(order[p]));
    assert Leq(key(order[p]), key(order[q]));
    KeyMeans(order[p], order[q]);
  }

  lemma CalledNoLater(trace: seq<Call>, order: seq<Candidate>, i: nat, j: nat, a: Candidate, b: Candidate)
    requires InTurn(trace, order) && i < j < |trace| && a in order && b in order
    requires trace[i].candidate == a.id && trace[j].candidate == b.id && trace[i].cls == trace[j].cls
    requires trace[i].stage == Bayes <==> trace[j].stage == Bayes
    requires Sorting.SortedBy(order, (c: Candidate) => c.OrderKey())
    ensures NoLater(a, b)
  {
    hide Sorting.SortedBy, NoLater;
    var p :| 0 <= p < |order| && order[p] == a;
    var q :| 0 <= q < |order| && order[q] == b;
    SortedNoLater(order, p, if p <= q then q else p);
  }

  lemma InTurnIsCheapFirst(trace: seq<Call>, order: seq<Candidate>, candidates: seq<Candidate>)
    requires InTurn(trace, order) && DistinctIds(candidates)
    requires Sorting.SortedBy(order, (c: Candidate) => c.OrderKey())
    requires forall c | c in order :: c in candidates
    requires forall c | c in trace :: exists a :: a in order && a.id == c.candidate
    ensures CheapFirst(trace, candidates)
  {
    hide InTurn, NoLater, Sorting.SortedBy, DistinctIds;
    forall i, j, a, b | 0 <= i < j < |trace| && a in candidates && b in candidates
                        && trace[i].candidate == a.id && trace[j].candidate == b.id && trace[i].cls == trace[j].cls
                        && (trace[i].stage == Bayes <==> trace[j].stage == Bayes)
      ensures NoLater(a, b)
    {
      assert trace[i] in trace && trace[j] in trace;
      SameId(candidates, order, a);
      SameId(candidates, order, b);
      CalledNoLater(trace, order, i, j, a, b);
    }
  }

  lemma SameId(candidates: seq<Candidate>, order: seq<Candidate>, a: Candidate)
    requires DistinctIds(candidates) && a in candidates && forall c | c in order :: c in candidates
    requires exists b :: b in order && b.id == a.id
    ensures a in order
  {
    var b :| b in order && b.id == a.id;
    var i :| 0 <= i < |candidates| && candidates[i] == a;
    var j :| 0 <= j < |candidates| && candidates[j] == b;
  }

  /** Classes are taken one after another in the order of their names. */
  predicate ClassByClass(trace: seq<Call>) {
    forall i, j | 0 <= i < j < |trace| :: Leq(trace[i].cls, trace[j].cls)
  }

  lemma NextClass(trace: seq<Call>, more: seq<Call>, cls: string)
    requires ClassByClass(trace)
    requires (forall c | c in trace :: Leq(c.cls, cls)) && forall c | c in more :: c.cls == cls
    ensures ClassByClass(trace + more) && forall c | c in trace + more :: Leq(c.cls, cls)
  {
    hide Leq;
    LeqTotal(cls, cls);
    var all := trace + more;
    forall i, j | 0 <= i < j < |all| ensures Leq(all[i].cls, all[j].cls) {
      if j < |trace| {
        assert all[i] == trace[i] && all[j] == trace[j];
      } else {
        assert all[j] in more && (i < |trace| ==> all[i] in trace) && (i >= |trace| ==> all[i] in more);
      }
    }
  }

  /** The calls of phase A once the first `n` candidates were screened. */
  ghost predicate ScreenTrace(trace: seq<Call>, active: seq<Candidate>, n: nat, cls: string, cases: seq<BatteryCase>,
                              attempt: nat -> AttemptResult, at: nat)
    requires n <= |active|
  {
    && Follows(trace, attempt, at) && OfCases(trace, cases) && NoBayes(trace)
    && InTurn(trace, active) && AmongFirst(trace, active, n)
    && forall c | c in trace :: c.cls == cls && c.candidate in (set a | a in active[..n] :: a.id)
  }

  lemma NothingScreened(active: seq<Candidate>, cls: string, cases: seq<BatteryCase>, attempt: nat -> AttemptResult,
                        at: nat)
    ensures ScreenTrace([], active, 0, cls, cases, attempt, at)
  {
    NothingInTurn(active);
    NoneFollow(attempt, at);
  }

  lemma NextScreened(trace: seq<Call>, calls: seq<Call>, active: seq<Candidate>, n: nat, cls: string,
                     cases: seq<BatteryCase>, attempt: nat -> AttemptResult, at: nat)
    requires n < |active| && DistinctIds(active) && ScreenTrace(trace, active, n, cls, cases, attempt, at)
    requires About(calls, active[n].id, cls) && NoBayes(calls) && OfCases(calls, cases)
    requires Follows(calls, attempt, at + |trace|)
    ensures ScreenTrace(trace + calls, active, n + 1, cls, cases, attempt, at)
    ensures forall x | 0 <= x < n ::
      && TallyFor(trace + calls, active[x].id, cls) == TallyFor(trace, active[x].id, cls)
      && CallsFor(trace + calls, active[x].id, cls) == CallsFor(trace, active[x].id, cls)
    ensures TallyFor(trace + calls, active[n].id, cls) == TallyFor(calls, active[n].id, cls)
    ensures CallsFor(trace + calls, active[n].id, cls) == calls
  {
    hide TallyFor, CallsFor, Follows, CallsCase, InTurn, AmongFirst;
    FollowsOn(trace, calls, attempt, at);
    TraceGrows(trace, calls, active, n, cls);
    NextInTurn(trace, calls, active, n, cls);
    CallsGrow(trace, calls, active, n, cls);
    CallsElsewhere(trace, active[n].id, cls);
    assert active[..n + 1] == active[..n] + [active[n]];
  }

  /** Phase A over all active candidates of one class. */
  method PhaseA(attempt: nat -> AttemptResult, at: nat, cls: string, cases: seq<BatteryCase>, n: int,
                active: seq<Candidate>)
    returns (pending: seq<StageResult>, cost: seq<CostLatency>, survivors: seq<nat>, trace: seq<Call>)
    requires cases != [] && DistinctIds(active)
    ensures |pending| == |active| == |cost|
    ensures forall i | 0 <= i < |active| :: fresh(pending[i]) && fresh(cost[i])
    ensures forall i | 0 <= i < |active| :: pending[i].candidate == active[i].id && pending[i].cls == cls
    ensures forall i | 0 <= i < |active| :: cost[i].candidate == active[i].id
    ensures forall i | 0 <= i < |active| :: Screened(pending[i], cost[i], TallyFor(trace, active[i].id, cls), n)
    ensures forall i | 0 <= i < |active| :: CellScreened(pending[i], CallsFor(trace, active[i].id, cls), cases)
    ensures forall i | 0 <= i < |active| :: i in survivors <==> pending[i].triggered
    ensures forall x | 0 <= x < |survivors| :: survivors[x] < |active|
    ensures forall x, y | 0 <= x < y < |survivors| :: survivors[x] < survivors[y]
    ensures NoBayes(trace) && forall c | c in trace :: c.cls == cls && c.candidate in (set a | a in active :: a.id)
    ensures Follows(trace, attempt, at) && OfCases(trace, cases) && InTurn(trace, active)
  {
    hide TallyFor, CallsFor, Screened, CellScreened, ScreenTrace, About, OfCases, NoBayes;
    pending, cost, survivors, trace := [], [], [], [];
    NothingScreened(active, cls, cases, attempt, at);
    for i := 0 to |active|
      invariant ScreenTrace(trace, active, i, cls, cases, attempt, at)
      invariant |pending| == i == |cost|
      invariant forall x | 0 <= x < i :: fresh(pending[x]) && fresh(cost[x])
      invariant forall x | 0 <= x < i :: pending[x].candidate == active[x].id && pending[x].cls == cls
      invariant forall x | 0 <= x < i :: cost[x].candidate == active[x].id
      invariant forall x | 0 <= x < i :: Screened(pending[x], cost[x], TallyFor(trace, active[x].id, cls), n)
      invariant forall x | 0 <= x < i :: CellScreened(pending[x], CallsFor(trace, active[x].id, cls), cases)
      invariant forall x | 0 <= x < i :: x in survivors <==> pending[x].triggered
      invariant forall x | 0 <= x < |survivors| :: survivors[x] < i
      invariant forall x, y | 0 <= x < y < |survivors| :: survivors[x] < survivors[y]
    {
      var cell := new StageResult(active[i].id, cls, n);
      var cl := new CostLatency(active[i].id, cls);
      var calls := ScreenCell(attempt, at + |trace|, cases, cell, cl);
      NextScreened(trace, calls, active, i, cls, cases, attempt, at);
      pending, cost := pending + [cell], cost + [cl];
      trace := trace + calls;
      if cell.triggered {
        survivors := survivors + [i];
      }
    }
    ScreenTraceMeans(trace, active, cls, cases, attempt, at);
  }

  lemma ScreenTraceMeans(trace: seq<Call>, active: seq<Candidate>, cls: string, cases: seq<BatteryCase>,
                         attempt: nat -> AttemptResult, at: nat)
    requires ScreenTrace(trace, active, |active|, cls, cases, attempt, at)
    ensures NoBayes(trace) && forall c | c in trace :: c.cls == cls && c.candidate in (set a | a in active :: a.id)
    ensures Follows(trace, attempt, at) && OfCases(trace, cases) && InTurn(trace, active)
  {
    assert active[..|active|] == active;
  }

  lemma {:induction false} NoBayesTally(trace: seq<Call>, candidate: string, cls: string)
    requires NoBayes(trace)
    ensures var t := TallyFor(trace, candidate, cls); t.bayes == 0 && t.trials == 0 && t.verified == 0
  {
    if trace != [] {
      NoBayesTally(trace[..|trace| - 1], candidate, cls);
    }
  }

  /** Phase B for one screened survivor, as a step of its books. */
  method JudgeSurvivor(attempt: nat -> AttemptResult, at: nat, cases: seq<BatteryCase>, n: int, cell: StageResult,
                       cl: CostLatency, beta: Posterior, mass: real, ghost t: Tally)
    returns (calls: seq<Call>)
    requires Screened(cell, cl, t, n) && cell.triggered
    modifies cell`transientFailures, cell`verifiedK, cell`n, cell`interval, cl`tokens, cl`seconds, cl`passes
    ensures About(calls, cell.candidate, cell.cls) && OnlyStage(calls, Bayes) && Follows(calls, attempt, at)
    ensures OfCases(calls, cases) && BayesRan(calls, cases, n)
    ensures Judged(cell, cl, t.Plus(TallyFor(calls, cell.candidate, cell.cls)), |cases|, n, beta, mass)
  {
    hide TallyFor, CredibleInterval, Planned, Follows, CallsCase, BayesRan;
    calls := BayesCell(attempt, at, cases, n, cell, cl, beta, mass);
  }

  /** The last step of a class: the prices. */
  method PriceCell(cell: StageResult, cl: CostLatency, price: real, ghost t: Tally, ghost cases: nat, ghost n: int,
                   ghost beta: Posterior, ghost mass: real)
    requires Judged(cell, cl, t, cases, n, beta, mass) || (Screened(cell, cl, t, n) && !cell.triggered)
    modifies cl
    ensures Reported(cell, cl, t, cases, n, price, beta, mass)
  {
    hide CredibleInterval, Planned;
    cl.Finalize(price);
  }

  ghost predicate Settled(judged: bool, c: StageResult, k: CostLatency, t: Tally, cases: nat, n: int, beta: Posterior,
                          mass: real)
    reads c, k
  {
    if judged then Judged(c, k, t, cases, n, beta, mass) else Screened(c, k, t, n)
  }

  /** What phase B calls for one cell: the Bayes attempts of a survivor, and nothing for any other. */
  ghost predicate BayesCalled(survives: bool, calls: seq<Call>, cases: seq<BatteryCase>, n: int) {
    if survives then BayesRan(calls, cases, n) else calls == []
  }

  /** The calls of phase B once those survivors were judged. */
  ghost predicate JudgedTrace(judged: seq<Call>, active: seq<Candidate>, survivors: seq<nat>, cls: string,
                              cases: seq<BatteryCase>, attempt: nat -> AttemptResult, at: nat) {
    && OnlyStage(judged, Bayes) && Follows(judged, attempt, at) && OfCases(judged, cases)
    && SurvivorsInTurn(judged, active, survivors)
    && forall c | c in judged :: c.cls == cls && c.candidate in (set a | a in active :: a.id)
  }

  lemma NothingJudgedYet(active: seq<Candidate>, cls: string, cases: seq<BatteryCase>, attempt: nat -> AttemptResult,
                         at: nat)
    ensures JudgedTrace([], active, [], cls, cases, attempt, at)
  {
    NothingInTurn(active);
    NoneFollow(attempt, at);
  }

  lemma NextJudged(judged: seq<Call>, calls: seq<Call>, active: seq<Candidate>, survivors: seq<nat>, s: nat,
                   cls: string, cases: seq<BatteryCase>, attempt: nat -> AttemptResult, at: nat)
    requires JudgedTrace(judged, active, survivors, cls, cases, attempt, at) && DistinctIds(active) && s < |active|
    requires About(calls, active[s].id, cls) && OnlyStage(calls, Bayes) && OfCases(calls, cases)
    requires Follows(calls, attempt, at + |judged|) && (survivors != [] ==> survivors[|survivors| - 1] < s)
    ensures JudgedTrace(judged + calls, active, survivors + [s], cls, cases, attempt, at)
  {
    hide Follows, CallsCase, SurvivorsInTurn, InTurn;
    FollowsOn(judged, calls, attempt, at);
    NextSurvivor(judged, calls, active, survivors, s, cls);
    forall c | c in judged + calls ensures c.cls == cls && c.candidate in (set a | a in active :: a.id) {
      if c in calls {
        assert active[s] in active;
      }
    }
  }

  lemma JudgedTraceMeans(judged: seq<Call>, active: seq<Candidate>, survivors: seq<nat>, cls: string,
                         cases: seq<BatteryCase>, attempt: nat -> AttemptResult, at: nat)
    requires JudgedTrace(judged, active, survivors, cls, cases, attempt, at)
    ensures OnlyStage(judged, Bayes) && Follows(judged, attempt, at) && OfCases(judged, cases) && InTurn(judged, active)
    ensures forall c | c in judged :: c.cls == cls && c.candidate in (set a | a in active :: a.id)
  {
    TheyAreInTurn(judged, active, survivors);
    hide Follows, CallsCase, SurvivorsInTurn, InTurn;
  }

  /** Phase B: Bayes over the survivors only. They keep the cheap-first order of `active`, so sorting them again
      changes nothing. */
  method PhaseB(attempt: nat -> AttemptResult, at: nat, cls: string, cases: seq<BatteryCase>, n: int,
                active: seq<Candidate>, beta: Posterior, mass: real, pending: seq<StageResult>, cost: seq<CostLatency>,
                survivors: seq<nat>, ghost screened: seq<Call>)
    returns (judged: seq<Call>)
    requires DistinctIds(active) && |pending| == |active| == |cost|
    requires forall i | 0 <= i < |active| :: pending[i].candidate == active[i].id && pending[i].cls == cls
    requires forall i | 0 <= i < |active| :: cost[i].candidate == active[i].id
    requires forall i | 0 <= i < |active| :: Screened(pending[i], cost[i], TallyFor(screened, active[i].id, cls), n)
    requires forall x | 0 <= x < |survivors| :: survivors[x] < |active| && pending[survivors[x]].triggered
    requires forall x, y | 0 <= x < y < |survivors| :: survivors[x] < survivors[y]
    modifies pending`transientFailures, pending`verifiedK, pending`n, pending`interval
    modifies cost`tokens, cost`seconds, cost`passes
    ensures forall i | 0 <= i < |active| :: BayesCalled(i in survivors, CallsFor(judged, active[i].id, cls), cases, n)
    ensures OnlyStage(judged, Bayes) && Follows(judged, attempt, at) && OfCases(judged, cases) && InTurn(judged, active)
    ensures forall c | c in judged :: c.cls == cls && c.candidate in (set a | a in active :: a.id)
    ensures forall i | 0 <= i < |active| :: Settled(i in survivors, pending[i], cost[i],
      TallyFor(screened + judged, active[i].id, cls), |cases|, n, beta, mass)
  {
    hide TallyFor, CallsFor, Judged, Screened, BayesRan, JudgedTrace, OnlyStage, OfCases, About, Follows, InTurn;
    judged := [];
    NothingJudgedYet(active, cls, cases, attempt, at);
    assert screened + judged == screened;
    forall i | 0 <= i < |active| ensures CallsFor(judged, active[i].id, cls) == [] {
      CallsElsewhere(judged, active[i].id, cls);
    }
    for x := 0 to |survivors|
      invariant JudgedTrace(judged, active, survivors[..x], cls, cases, attempt, at)
      invariant forall i | 0 <= i < |active| :: Settled(i in survivors[..x], pending[i], cost[i],
        TallyFor(screened + judged, active[i].id, cls), |cases|, n, beta, mass)
      invariant forall i | 0 <= i < |active| ::
          BayesCalled(i in survivors[..x], CallsFor(judged, active[i].id, cls), cases, n)
    {
      var s := survivors[x];
      ghost var trace := screened + judged;
      assert survivors[..x + 1] == survivors[..x] + [s];
      assert s !in survivors[..x];
      assert Settled(s in survivors[..x], pending[s], cost[s], TallyFor(trace, active[s].id, cls),
                     |cases|, n, beta, mass);
      var calls := JudgeSurvivor(attempt, at + |judged|, cases, n, pending[s], cost[s], beta, mass,
                                 TallyFor(trace, active[s].id, cls));
      assert screened + (judged + calls) == trace + calls;
      JudgedTally(trace, calls, active, s, cls);
      NextJudged(judged, calls, active, survivors[..x], s, cls, cases, attempt, at);
      CallsGrow(judged, calls, active, s, cls);
      assert BayesCalled(false, CallsFor(judged, active[s].id, cls), cases, n) && [] + calls == calls;
      judged := judged + calls;
    }
    assert survivors[..|survivors|] == survivors;
    JudgedTraceMeans(judged, active, survivors, cls, cases, attempt, at);
  }

  lemma CellIsRun(c: StageResult, screened: seq<Call>, judged: seq<Call>, cases: seq<BatteryCase>, n: int)
    requires cases != [] && CellScreened(c, screened, cases) && BayesCalled(c.triggered, judged, cases, n)
    ensures CellRan(c, screened + judged, cases, n)
  {
    hide CellScreened, BayesRan;
    assert (screened + judged)[..|screened|] == screened && (screened + judged)[|screened|..] == judged;
  }

  /** One class: phase A, phase B, prices. */
  method RunClass(attempt: nat -> AttemptResult, at: nat, cls: string, cases: seq<BatteryCase>, n: int,
                  active: seq<Candidate>, prices: map<string, real>, beta: Posterior, mass: real)
    returns (pending: seq<StageResult>, cost: seq<CostLatency>, trace: seq<Call>)
    requires cases != [] && DistinctIds(active)
    ensures |pending| == |active| == |cost|
    ensures forall i | 0 <= i < |active| :: fresh(pending[i]) && fresh(cost[i])
    ensures forall i | 0 <= i < |active| :: pending[i].candidate == active[i].id && pending[i].cls == cls
    ensures forall i | 0 <= i < |active| ::
      Reported(pending[i], cost[i], TallyFor(trace, active[i].id, cls), |cases|, n,
        PriceOf(prices, active[i].id), beta, mass)
    ensures forall i | 0 <= i < |active| :: CellRan(pending[i], CallsFor(trace, active[i].id, cls), cases, n)
    ensures ScreenBeforeBayes(trace) && Follows(trace, attempt, at) && OfCases(trace, cases) && InTurn(trace, active)
    ensures forall c | c in trace :: c.cls == cls && c.candidate in (set a | a in active :: a.id)
  {
    hide TallyFor, CallsFor, Judged, Screened, Reported, Follows, CallsCase, CellScreened, BayesRan, CellRan, InTurn;
    var survivors, screened;
    pending, cost, survivors, screened := PhaseA(attempt, at, cls, cases, n, active);
    var judged := PhaseB(attempt, at + |screened|, cls, cases, n, active, beta, mass, pending, cost,
                         survivors, screened);
    trace := screened + judged;
    forall i | 0 <= i < |active| ensures CellRan(pending[i], CallsFor(trace, active[i].id, cls), cases, n) {
      CallsAppend(screened, judged, active[i].id, cls);
      CellIsRun(pending[i], CallsFor(screened, active[i].id, cls), CallsFor(judged, active[i].id, cls), cases, n);
    }
    FollowsOn(screened, judged, attempt, at);
    PartsInTurn(screened, judged, active);
    PriceAll(cases, n, active, prices, beta, mass, pending, cost, survivors, trace, cls);
  }

  /** The prices of a class. */
  method PriceAll(cases: seq<BatteryCase>, n: int, active: seq<Candidate>, prices: map<string, real>, beta: Posterior,
                  mass: real, pending: seq<StageResult>, cost: seq<CostLatency>, survivors: seq<nat>,
                  ghost trace: seq<Call>, cls: string)
    requires |pending| == |active| == |cost| && forall i, j | 0 <= i < j < |cost| :: cost[i] != cost[j]
    requires forall i | 0 <= i < |active| :: i !in survivors ==> !pending[i].triggered
    requires forall i | 0 <= i < |active| :: Settled(i in survivors, pending[i], cost[i],
      TallyFor(trace, active[i].id, cls), |cases|, n, beta, mass)
    modifies cost
    ensures forall i | 0 <= i < |active| :: Reported(pending[i], cost[i], TallyFor(trace, active[i].id, cls),
      |cases|, n,
      PriceOf(prices, active[i].id), beta, mass)
  {
    hide TallyFor, Judged, Screened, Reported;
    for i := 0 to |active|
      invariant forall j | 0 <= j < i :: Reported(pending[j], cost[j], TallyFor(trace, active[j].id, cls), |cases|, n,
                                                  PriceOf(prices, active[j].id), beta, mass)
      invariant forall j | i <= j < |active| :: Settled(j in survivors, pending[j], cost[j],
        TallyFor(trace, active[j].id, cls), |cases|, n, beta, mass)
    {
      assert Settled(i in survivors, pending[i], cost[i], TallyFor(trace, active[i].id, cls), |cases|, n, beta, mass);
      PriceCell(pending[i], cost[i], PriceOf(prices, active[i].id), TallyFor(trace, active[i].id, cls), |cases|, n,
                beta, mass);
    }
  }

  function PriceOf(prices: map<string, real>, id: string): (price: real)
    ensures id !in prices ==> price == 0.0
    ensures id in prices ==> price == prices[id]
  {
    if id in prices then prices[id] else 0.0
  }

  lemma JudgedTally(trace: seq<Call>, calls: seq<Call>, active: seq<Candidate>, s: nat, cls: string)
    requires DistinctIds(active) && s < |active| && About(calls, active[s].id, cls)
    ensures forall i | 0 <= i < |active| && i != s ::
      TallyFor(trace + calls, active[i].id, cls) == TallyFor(trace, active[i].id, cls)
    ensures TallyFor(trace + calls, active[s].id, cls)
         == TallyFor(trace, active[s].id, cls).Plus(TallyFor(calls, active[s].id, cls))
  {
    forall i | 0 <= i < |active| && i != s
      ensures TallyFor(trace + calls, active[i].id, cls) == TallyFor(trace, active[i].id, cls)
    {
      TallyAppend(trace, calls, active[i].id, cls);
      TallyElsewhere(calls, active[i].id, cls);
      PlusLaws(TallyFor(trace, active[i].id, cls), ZERO, ZERO);
    }
    TallyAppend(trace, calls, active[s].id, cls);
  }

  // ---- the whole cascade -------------------------------------------------

  /** The cases of one class, in battery order. */
  function CasesOf(battery: seq<BatteryCase>, cls: string): (cases: seq<BatteryCase>)
    ensures forall b :: b in cases <==> b in battery && b.findingClass == cls
  {
    if battery == [] then []
    else
      var b := battery[|battery| - 1];
      assert battery == battery[..|battery| - 1] + [b];
      CasesOf(battery[..|battery| - 1], cls) + (if b.findingClass == cls then [b] else [])
  }

  function Callable(cs: seq<Candidate>): (r: seq<Candidate>)
    ensures forall c :: c in r <==> c in cs && c.callable
  {
    if cs == [] then []
    else
      var n := |cs| - 1;
      assert cs == cs[..n] + [cs[n]];
      Callable(cs[..n]) + (if cs[n].callable then [cs[n]] else [])
  }

  lemma {:induction false} CallableDistinct(cs: seq<Candidate>)
    requires DistinctIds(cs)
    ensures DistinctIds(Callable(cs))
  {
    if cs != [] {
      var n := |cs| - 1;
      CallableDistinct(cs[..n]);
      forall c | c in Callable(cs[..n]) ensures c.id != cs[n].id {
        var k :| 0 <= k < n && cs[..n][k] == c;
        assert cs[k] == c;
      }
    }
  }

  lemma SortedDistinct(cs: seq<Candidate>)
    requires DistinctIds(cs)
    ensures DistinctIds(Sorting.SortBy(cs, (c: Candidate) => c.OrderKey()))
    ensures forall c :: c in Sorting.SortBy(cs, (c: Candidate) => c.OrderKey()) <==> c in cs
  {
    var key := (c: Candidate) => c.OrderKey();
    var ys := Sorting.SortBy(cs, key);
    Sorting.SortByMembers(cs, key);
    Sorting.SortByIsSorted(cs, key);
    var id := (c: Candidate) => c.id;
    forall i, j | 0 <= i < j < |ys| ensures ys[i].id != ys[j].id {
      Sorting.KeysStayApart(cs, ys, id, i, j);
    }
  }

  /** Every non-blank class of the battery is in the pre-registered enum, every candidate is registered. */
  predicate Registered(battery: seq<BatteryCase>, candidates: seq<Candidate>,
                       enumerated: set<string>, subjects: set<string>) {
    && (forall b | b in battery :: Blank(b.findingClass) || b.findingClass in enumerated)
    && (forall c | c in candidates :: c.id in subjects)
  }

  /** The distinct non-blank classes of the battery, in order of first mention. */
  function ClassesOf(battery: seq<BatteryCase>): (r: seq<string>)
    ensures forall i, j | 0 <= i < j < |r| :: r[i] != r[j]
    ensures forall c | c in r :: CasesOf(battery, c) != []
    ensures forall c :: c in r <==> !Blank(c) && exists b :: b in battery && b.findingClass == c
  {
    if battery == [] then []
    else
      var n := |battery| - 1;
      assert battery == battery[..n] + [battery[n]];
      var init, c := ClassesOf(battery[..n]), battery[n].findingClass;
      if Blank(c) || c in init then init else init + [c]
  }

  /** All cells of all classes so far are reported from the one global call trace. */
  ghost predicate AllReported(results: seq<StageResult>, costs: seq<CostLatency>, trace: seq<Call>,
                              battery: seq<BatteryCase>, nByClass: map<string, int>, prices: map<string, real>,
                              beta: Posterior, mass: real)
    reads results, costs
  {
    |results| == |costs| && forall i | 0 <= i < |results| ::
      Reported(results[i], costs[i], TallyFor(trace, results[i].candidate, results[i].cls),
               |CasesOf(battery, results[i].cls)|, RegisteredN(nByClass, results[i].cls),
               PriceOf(prices, results[i].candidate), beta, mass)
  }

  /** The calls of every cell so far in the one global trace. */
  ghost predicate AllRan(results: seq<StageResult>, trace: seq<Call>, battery: seq<BatteryCase>,
                         nByClass: map<string, int>)
    reads results
  {
    forall i | 0 <= i < |results| :: RanInBattery(results[i], trace, battery, nByClass)
  }

  ghost predicate RanInBattery(c: StageResult, trace: seq<Call>, battery: seq<BatteryCase>, nByClass: map<string, int>)
    reads c
  {
    CasesOf(battery, c.cls) != []
    && CellRan(c, CallsFor(trace, c.candidate, c.cls), CasesOf(battery, c.cls), RegisteredN(nByClass, c.cls))
  }

  lemma RanTogether(results: seq<StageResult>, trace: seq<Call>, pending: seq<StageResult>, more: seq<Call>,
                    cls: string, battery: seq<BatteryCase>, nByClass: map<string, int>)
    requires AllRan(results, trace, battery, nByClass)
    requires forall i | 0 <= i < |pending| :: pending[i].cls == cls && RanInBattery(pending[i], more, battery, nByClass)
    requires forall c | c in more :: c.cls == cls
    requires forall c | c in trace :: c.cls != cls
    requires forall i | 0 <= i < |results| :: results[i].cls != cls
    ensures AllRan(results + pending, trace + more, battery, nByClass)
  {
    hide CellRan, CallsFor, CasesOf;
    var all := results + pending;
    forall i | 0 <= i < |all| ensures RanInBattery(all[i], trace + more, battery, nByClass) {
      CallsAppend(trace, more, all[i].candidate, all[i].cls);
      if i < |results| {
        assert RanInBattery(results[i], trace, battery, nByClass);
        CallsElsewhere(more, all[i].candidate, all[i].cls);
        var mine := CallsFor(trace, all[i].candidate, all[i].cls);
        assert mine + [] == mine;
      } else {
        assert all[i] == pending[i - |results|];
        CallsElsewhere(trace, all[i].candidate, all[i].cls);
        var mine := CallsFor(more, all[i].candidate, all[i].cls);
        assert [] + mine == mine;
      }
    }
  }

  /** The call at `k` screens the case without firing, and is not retried; or it and the next one are both transient. */
  predicate ScreensInVain(calls: seq<Call>, k: nat, caseId: string) {
    && k < |calls| && calls[k].stage == Screen && calls[k].caseId == caseId
    && if calls[k].result.transient
       then k + 1 < |calls| && calls[k + 1].stage == Screen && calls[k + 1].caseId == caseId
            && calls[k + 1].result.transient
       else !calls[k].result.triggered
  }

  lemma {:induction false} FlatAt<T>(blocks: seq<seq<T>>, j: nat) returns (at: nat)
    requires j < |blocks|
    ensures at + |blocks[j]| <= |Flat(blocks)| && Flat(blocks)[at..at + |blocks[j]|] == blocks[j]
    decreases |blocks|
  {
    var init := blocks[..|blocks| - 1];
    if j == |init| {
      at := |Flat(init)|;
    } else {
      at := FlatAt(init, j);
      assert Flat(blocks)[at..at + |blocks[j]|] == Flat(init)[at..at + |blocks[j]|];
    }
  }

  lemma BlockInVain(calls: seq<Call>, at: nat, block: seq<Call>, caseId: string) returns (k: nat)
    requires at + |block| <= |calls| && calls[at..at + |block|] == block
    requires Retried(block, caseId, Screen, 1) && !Fires(block)
    ensures k < |calls| && ScreensInVain(calls, k, caseId)
  {
    k := if block[0].result.transient && |block| == 2 && !block[1].result.transient then at + 1 else at;
    assert calls[at] == block[0];
    assert |block| == 2 ==> calls[at + 1] == block[1];
  }

  lemma UntriggeredIsScreened(c: StageResult, calls: seq<Call>, cases: seq<BatteryCase>, n: int)
    requires cases != [] && !c.triggered && CellRan(c, calls, cases, n)
    ensures CellScreened(c, calls, cases)
  {
    hide CellScreened, BayesRan;
    var cut :| 0 <= cut <= |calls| && CellScreened(c, calls[..cut], cases) && calls[cut..] == [];
    assert calls[..cut] == calls;
  }

  lemma ScreenOf(c: StageResult, calls: seq<Call>, cases: seq<BatteryCase>)
    returns (smoke: seq<Call>, screen: seq<seq<Call>>)
    requires cases != [] && c.smoke == SmokePass && !c.triggered && CellScreened(c, calls, cases)
    ensures calls == smoke + Flat(screen) && ScreenRan(screen, cases, false)
  {
    hide Flat, SmokeRan, ScreenRan;
    smoke, screen :| calls == smoke + Flat(screen) && CellBlocks(c, smoke, screen, cases);
  }

  lemma ScreenedInVain(calls: seq<Call>, smoke: seq<Call>, screen: seq<seq<Call>>, cases: seq<BatteryCase>, j: nat)
    returns (k: nat)
    requires calls == smoke + Flat(screen) && ScreenRan(screen, cases, false) && j < |cases|
    ensures k < |calls| && ScreensInVain(calls, k, cases[j].caseId)
  {
    hide Flat, Retried, Fires;
    var at := FlatAt(screen, j);
    assert calls[|smoke| + at..|smoke| + at + |screen[j]|] == screen[j];
    assert !Fires(screen[j]);
    k := BlockInVain(calls, |smoke| + at, screen[j], cases[j].caseId);
  }

  /** A candidate that passed its smoke test is reported as not triggered only after every case of the class was
      screened, and either did not fire or was never read in two attempts. */
  lemma UntriggeredWasScreened(c: StageResult, trace: seq<Call>, battery: seq<BatteryCase>, nByClass: map<string, int>,
                               b: BatteryCase) returns (k: nat)
    requires RanInBattery(c, trace, battery, nByClass)
    requires c.smoke == SmokePass && !c.triggered && b in CasesOf(battery, c.cls)
    ensures var calls := CallsFor(trace, c.candidate, c.cls);
      && ScreensInVain(calls, k, b.caseId)
      && calls[k] in trace && calls[k].candidate == c.candidate && calls[k].cls == c.cls
  {
    hide CallsFor, CellRan, CellScreened, CasesOf, ScreensInVain;
    var calls, cases := CallsFor(trace, c.candidate, c.cls), CasesOf(battery, c.cls);
    UntriggeredIsScreened(c, calls, cases, RegisteredN(nByClass, c.cls));
    var smoke, screen := ScreenOf(c, calls, cases);
    var j :| 0 <= j < |cases| && cases[j] == b;
    k := ScreenedInVain(calls, smoke, screen, cases, j);
    CallsForMeans(trace, c.candidate, c.cls, calls[k]);
  }

  function RegisteredN(nByClass: map<string, int>, cls: string): (n: int)
    ensures cls !in nByClass ==> n == 0
    ensures cls in nByClass ==> n == nByClass[cls]
  {
    if cls in nByClass then nByClass[cls] else 0
  }

  lemma OtherClassesKeepTheirTally(trace: seq<Call>, more: seq<Call>, cls: string, candidate: string, other: string)
    requires forall c | c in more :: c.cls == cls
    ensures other != cls ==> TallyFor(trace + more, candidate, other) == TallyFor(trace, candidate, other)
    ensures (forall c | c in trace :: c.cls != cls) ==>
      TallyFor(trace + more, candidate, cls) == TallyFor(more, candidate, cls)
  {
    TallyAppend(trace, more, candidate, other);
    TallyAppend(trace, more, candidate, cls);
    if other != cls {
      TallyElsewhere(more, candidate, other);
      PlusLaws(TallyFor(trace, candidate, other), ZERO, ZERO);
    }
    if forall c | c in trace :: c.cls != cls {
      TallyElsewhere(trace, candidate, cls);
      PlusLaws(TallyFor(more, candidate, cls), ZERO, ZERO);
    }
  }

  /** One more class reported over the longer trace. */
  lemma {:induction false} ReportedTogether(results: seq<StageResult>, costs: seq<CostLatency>, trace: seq<Call>,
      pending: seq<StageResult>, cost: seq<CostLatency>, more: seq<Call>, cls: string,
      active: seq<Candidate>, battery: seq<BatteryCase>, nByClass: map<string, int>,
                                            prices: map<string, real>, beta: Posterior, mass: real)
    requires AllReported(results, costs, trace, battery, nByClass, prices, beta, mass)
    requires |pending| == |active| == |cost|
    requires forall i | 0 <= i < |active| :: pending[i].candidate == active[i].id && pending[i].cls == cls
    requires forall i | 0 <= i < |active| :: Reported(pending[i], cost[i], TallyFor(more, active[i].id, cls),
      |CasesOf(battery, cls)|, RegisteredN(nByClass, cls), PriceOf(prices, active[i].id), beta, mass)
    requires forall c | c in more :: c.cls == cls
    requires forall c | c in trace :: c.cls != cls
    requires forall i | 0 <= i < |results| :: results[i].cls != cls
    ensures AllReported(results + pending, costs + cost, trace + more, battery, nByClass, prices, beta, mass)
  {
    hide Reported, TallyFor, CasesOf;
    forall i | 0 <= i < |results|
      ensures TallyFor(trace + more, results[i].candidate, results[i].cls)
           == TallyFor(trace, results[i].candidate, results[i].cls)
    {
      OtherClassesKeepTheirTally(trace, more, cls, results[i].candidate, results[i].cls);
    }
    forall i | 0 <= i < |active|
      ensures TallyFor(trace + more, active[i].id, cls) == TallyFor(more, active[i].id, cls) {
      OtherClassesKeepTheirTally(trace, more, cls, active[i].id, cls);
    }
  }

  predicate DistinctCells(results: seq<StageResult>) {
    forall i, j | 0 <= i < j < |results| ::
      (results[i].candidate, results[i].cls) != (results[j].candidate, results[j].cls)
  }

  /** Every class of the battery has a cell for every callable candidate. */
  ghost predicate CoversAll(results: seq<StageResult>, classes: seq<string>, active: seq<Candidate>) {
    forall cls, c | cls in classes && c in active :: HasCell(results, c.id, cls)
  }

  ghost predicate HasCell(results: seq<StageResult>, candidate: string, cls: string) {
    exists i :: 0 <= i < |results| && results[i].candidate == candidate && results[i].cls == cls
  }

  lemma CellsGrow(results: seq<StageResult>, pending: seq<StageResult>, classes: seq<string>, cls: string,
                  active: seq<Candidate>)
    requires CoversAll(results, classes, active) && DistinctCells(results) && DistinctIds(active)
      && |pending| == |active|
    requires forall i | 0 <= i < |active| :: pending[i].candidate == active[i].id && pending[i].cls == cls
    requires forall i | 0 <= i < |results| :: results[i].cls != cls
    ensures CoversAll(results + pending, classes + [cls], active) && DistinctCells(results + pending)
  {
    var all := results + pending;
    forall x, c | x in classes + [cls] && c in active ensures HasCell(all, c.id, x) {
      if x == cls {
        var i :| 0 <= i < |active| && active[i] == c;
        assert all[|results| + i] == pending[i];
      } else {
        assert HasCell(results, c.id, x);
        var i :| 0 <= i < |results| && results[i].candidate == c.id && results[i].cls == x;
        assert all[i] == results[i];
      }
    }
  }

  /** The class loop of `run_cascade`. */
  method RunClasses(attempt: nat -> AttemptResult, battery: seq<BatteryCase>, classes: seq<string>,
                    active: seq<Candidate>, nByClass: map<string, int>, prices: map<string, real>, beta: Posterior,
                    mass: real)
    returns (results: seq<StageResult>, costs: seq<CostLatency>, trace: seq<Call>)
    requires DistinctIds(active) && forall i, j | 0 <= i < j < |classes| :: classes[i] != classes[j]
    requires forall c | c in classes :: CasesOf(battery, c) != []
    requires forall i, j | 0 <= i < j < |classes| :: Leq(classes[i], classes[j])
    ensures InTurn(trace, active) && ClassByClass(trace)
    ensures AllReported(results, costs, trace, battery, nByClass, prices, beta, mass)
    ensures CoversAll(results, classes, active) && DistinctCells(results) && ScreenBeforeBayes(trace)
    ensures AllRan(results, trace, battery, nByClass)
    ensures Follows(trace, attempt, 0) && forall c | c in trace :: CallsCase(c, CasesOf(battery, c.cls))
    ensures forall c | c in trace :: c.candidate in (set a | a in active :: a.id)
  {
    hide TallyFor, CallsFor, CellRan, Reported, CasesOf, AllReported, AllRan, CoversAll, DistinctCells,
      ScreenBeforeBayes, Follows, CallsCase, InTurn, ClassByClass, Leq;
    NoneFollow(attempt, 0);
    NothingInTurn(active);
    NothingReported(battery, nByClass, prices, beta, mass);
    results, costs, trace := [], [], [];
    for k := 0 to |classes|
      invariant |results| == |costs| && CoversAll(results, classes[..k], active) && DistinctCells(results)
      invariant forall i | 0 <= i < |results| :: fresh(results[i]) && fresh(costs[i])
      invariant AllReported(results, costs, trace, battery, nByClass, prices, beta, mass)
      invariant AllRan(results, trace, battery, nByClass)
      invariant forall i | 0 <= i < |results| :: results[i].cls in classes[..k]
      invariant forall c | c in trace :: c.cls in classes[..k] && c.candidate in (set a | a in active :: a.id)
      invariant ScreenBeforeBayes(trace) && Follows(trace, attempt, 0) && InTurn(trace, active) && ClassByClass(trace)
      invariant forall c | c in trace :: CallsCase(c, CasesOf(battery, c.cls))
    {
      var cls := classes[k];
      assert classes[..k + 1] == classes[..k] + [cls];
      var pending, cost, more := RunClass(attempt, |trace|, cls, CasesOf(battery, cls), RegisteredN(nByClass, cls),
                                          active, prices, beta, mass);
      ReportedTogether(results, costs, trace, pending, cost, more, cls, active, battery, nByClass, prices, beta, mass);
      RanTogether(results, trace, pending, more, cls, battery, nByClass);
      CellsGrow(results, pending, classes[..k], cls, active);
      OrderKept(trace, more, cls);
      PartsInTurn(trace, more, active);
      NextClass(trace, more, cls);
      FollowsOn(trace, more, attempt, 0);
      results, costs, trace := results + pending, costs + cost, trace + more;
    }
    assert classes[..|classes|] == classes;
  }

  /** `run_cascade`: `None` is the enforcement error, raised before any attempt is made. */
  method RunCascade(attempt: nat -> AttemptResult, battery: seq<BatteryCase>, candidates: seq<Candidate>,
                    enumerated: set<string>, subjects: set<string>, nByClass: map<string, int>,
                    prices: map<string, real>, beta: Posterior, mass: real)
    returns (r: Option<(seq<StageResult>, seq<CostLatency>)>, trace: seq<Call>)
    requires DistinctIds(candidates)
    ensures r.Some? <==> Registered(battery, candidates, enumerated, subjects)
    ensures r.None? ==> trace == []
    ensures r.Some? ==> AllReported(r.value.0, r.value.1, trace, battery, nByClass, prices, beta, mass)
    // Exactly these calls are made for each cell, in this order.
    ensures r.Some? ==> AllRan(r.value.0, trace, battery, nByClass)
    ensures r.Some? ==> CoversAll(r.value.0, ClassesOf(battery), Callable(candidates)) && DistinctCells(r.value.0)
    ensures ScreenBeforeBayes(trace) && ClassByClass(trace) && CheapFirst(trace, candidates)
    ensures forall k: nat | k < |trace| :: trace[k].result == attempt(k)
    ensures forall c | c in trace :: CallsCase(c, CasesOf(battery, c.cls))
    ensures forall c | c in trace :: c.candidate in (set a | a in Callable(candidates) :: a.id)
  {
    hide TallyFor, Reported, CasesOf, ClassesOf, Blank, AllReported, AllRan, CoversAll, DistinctCells, CallsCase,
      InTurn, CheapFirst, ClassByClass, Leq;
    trace := [];
    NothingCalled(candidates);
    if exists b | b in battery :: !Blank(b.findingClass) && b.findingClass !in enumerated {
      return None, trace;
    }
    if exists c | c in candidates :: c.id !in subjects {
      return None, trace;
    }
    var active := Sorting.SortBy(Callable(candidates), (c: Candidate) => c.OrderKey());
    CallableDistinct(candidates);
    SortedDistinct(Callable(candidates));
    var classes := Sorting.SortBy(ClassesOf(battery), (c: string) => c);
    Sorting.SortByMembers(ClassesOf(battery), (c: string) => c);
    Sorting.SortByDistinct(ClassesOf(battery), (c: string) => c);
    Sorting.SortByIsSorted(ClassesOf(battery), (c: string) => c);
    Sorting.SortByIsSorted(Callable(candidates), (c: Candidate) => c.OrderKey());
    var results, costs;
    results, costs, trace := RunClasses(attempt, battery, classes, active, nByClass, prices, beta, mass);
    SameCover(results, classes, ClassesOf(battery), active, Callable(candidates));
    InTurnIsCheapFirst(trace, active, candidates);
    r := Some((results, costs));
  }

  lemma NothingCalled(candidates: seq<Candidate>)
    ensures CheapFirst([], candidates) && ClassByClass([])
  {
  }

  lemma NothingReported(battery: seq<BatteryCase>, nByClass: map<string, int>, prices: map<string, real>,
                        beta: Posterior, mass: real)
    ensures AllReported([], [], [], battery, nByClass, prices, beta, mass) && AllRan([], [], battery, nByClass)
    ensures DistinctCells([]) && ScreenBeforeBayes([]) && forall active :: CoversAll([], [], active)
  {
  }

  lemma SameCover(results: seq<StageResult>, classes: seq<string>, classes': seq<string>, active: seq<Candidate>,
                  active': seq<Candidate>)
    requires CoversAll(results, classes, active)
    requires (forall c :: c in classes' <==> c in classes) && (forall c :: c in active' <==> c in active)
    ensures CoversAll(results, classes', active')
  {
  }

  lemma OrderKept(trace: seq<Call>, more: seq<Call>, cls: string)
    requires ScreenBeforeBayes(trace) && ScreenBeforeBayes(more)
    requires forall c | c in trace :: c.cls != cls
    requires forall c | c in more :: c.cls == cls
    ensures ScreenBeforeBayes(trace + more)
  {
    var t := trace + more;
    forall i, j | 0 <= i < j < |t| && t[i].cls == t[j].cls ensures t[i].stage == Bayes ==> t[j].stage == Bayes {
      assert forall x | 0 <= x < |more| :: more[x] in more && t[|trace| + x] == more[x];
      if i < |trace| {
        assert trace[i] in trace;
      } else {
        assert t[i] == more[i - |trace|] && t[j] == more[j - |trace|];
      }
    }
  }
}
