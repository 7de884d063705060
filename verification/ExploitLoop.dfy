/** The agentic exploit loop: bounded read round-trips inside bounded re-rolls inside a bounded
    draft, run, observe cycle, against an arbitrary model and sandbox (scripts/exploit_loop.py). */
module ExploitLoop {
  import opened Options
  import opened Text

  type Signature = seq<string>

  /** A model reply as the loop sees it: how many read-only requests it makes, and the Solidity extracted from it. */
  datatype ModelReply = ModelReply(requests: nat, code: string)

  /** What one forge run printed, as the facts the loop reads off it. */
  datatype ForgeRun = ForgeRun(passed: bool, compiled: bool, failSig: Signature, errorSig: Signature) {
    function Sig(): Signature {
      if failSig != [] then failSig else errorSig
    }
  }

  /** The `n`-th call gets the `n`-th answer: any model, any sandbox, any clock. */
  datatype Env = Env(reply: nat -> ModelReply, forge: nat -> ForgeRun, pastDeadline: nat -> bool)

  datatype LoopOutcome = Triggered | BudgetExhausted | SpinStopped | NoCode

  function AtLeastZero(n: int): nat {
    if n < 0 then 0 else n
  }

  /** How many reads the replies `from` to `to` asked for, the forced turn's not counted. */
  function Requested(env: Env, from: nat, to: nat, forced: Option<nat>): nat {
    if to <= from then 0
    else Requested(env, from, to - 1, forced) + (if forced == Some(to - 1) then 0 else env.reply(to - 1).requests)
  }

  /** How much of the read budget is spent before reply `k`. */
  function Spent(env: Env, from: nat, k: nat, forced: Option<nat>, readBudget: int): nat {
    var r := Requested(env, from, k, forced);
    if r < AtLeastZero(readBudget) then r else AtLeastZero(readBudget)
  }

  /** Reply `k` asks for reads while there is budget for one. */
  predicate GetsReads(env: Env, from: nat, k: nat, forced: Option<nat>, readBudget: int) {
    env.reply(k).requests > 0 && Spent(env, from, k, forced, readBudget) < readBudget
  }

  lemma {:induction false} RequestedBefore(env: Env, from: nat, to: nat, forced: nat)
    requires to <= forced
    ensures Requested(env, from, to, Some(forced)) == Requested(env, from, to, None)
  {
    if from < to {
      RequestedBefore(env, from, to - 1, forced);
    }
  }

  /** `_generate_with_reads`: read round-trips while the budget lasts, then one forced commit turn. `calls` counts the
      model calls so far over the whole loop. */
  method GenerateWithReads(env: Env, calls0: nat, readBudget: int)
    returns (code: string, calls: nat, used: nat, ghost forced: Option<nat>)
    ensures calls0 < calls <= calls0 + AtLeastZero(readBudget) + 2
    ensures used <= AtLeastZero(readBudget)
    ensures code == env.reply(calls - 1).code
    // Giving up empty-handed takes a forced turn: no draft is abandoned after a single reply.
    ensures code == [] ==> calls0 + 2 <= calls
    // Every reply that asks for reads within the budget gets them and is followed by another, but for one forced turn
    // behind a reply without code; the last reply gets none, and is empty only behind the forced turn.
    ensures forall k | calls0 <= k < calls ::
      GetsReads(env, calls0, k, forced, readBudget) <==> k < calls - 1 && forced != Some(k)
    ensures forced.Some? ==> calls0 <= forced.value < calls - 1 && env.reply(forced.value).code == []
    ensures code == [] ==> forced.Some?
    ensures used == Spent(env, calls0, calls - 1, forced, readBudget)
  {
    hide Requested;
    used := 0;
    var committed := false;
    forced := None;
    calls := calls0;
    NothingRequested(env, calls0, forced);
    while true
      invariant calls0 <= calls && 0 <= used <= AtLeastZero(readBudget)
      invariant calls - calls0 <= used + (if committed then 1 else 0)
      invariant committed ==> calls0 < calls
      invariant (committed <==> forced.Some?) && used == Spent(env, calls0, calls, forced, readBudget)
      invariant forced.Some? ==> calls0 <= forced.value < calls && env.reply(forced.value).code == []
      invariant forall k | calls0 <= k < calls :: GetsReads(env, calls0, k, forced, readBudget) <==> forced != Some(k)
      decreases AtLeastZero(readBudget) - used, !committed
    {
      OneMoreReply(env, calls0, calls, forced);
      var reply := env.reply(calls);
      calls := calls + 1;
      if reply.requests > 0 && used < readBudget {
        var batch := if reply.requests < readBudget - used then reply.requests else readBudget - used;
        used := used + batch;
        continue;
      }
      code := reply.code;
      if code != [] || committed {
        return;
      }
      forall k | calls0 <= k < calls
        ensures GetsReads(env, calls0, k, Some(calls - 1), readBudget) <==> GetsReads(env, calls0, k, None, readBudget)
      {
        RequestedBefore(env, calls0, k, calls - 1);
      }
      RequestedBefore(env, calls0, calls - 1, calls - 1);
      committed, forced := true, Some(calls - 1);
      OneMoreReply(env, calls0, calls - 1, forced);
    }
  }

  lemma NothingRequested(env: Env, from: nat, forced: Option<nat>)
    ensures Requested(env, from, from, forced) == 0
  {
  }

  lemma OneMoreReply(env: Env, from: nat, to: nat, forced: Option<nat>)
    requires from <= to
    ensures Requested(env, from, to + 1, forced)
         == Requested(env, from, to, forced) + if forced == Some(to) then 0 else env.reply(to).requests
  {
  }

  // ---- what the spin counter means ---------------------------------------

  /** The last `k` recorded signatures are one and the same non-empty signature. */
  predicate Spinning(history: seq<Signature>, k: nat) {
    k <= |history| && (k > 0 ==> history[|history| - 1] != [])
    && forall j | |history| - k <= j < |history| :: history[j] == history[|history| - 1]
  }

  class LoopState {
    var callsUsed: nat
    var spinCount: nat
    var prevSig: Option<Signature>
    var distinctSigs: set<Signature>
    var degenerateRetries: nat
    var iterations: seq<Signature>

    /** The counters say what they should about the whole history of recorded signatures. */
    ghost predicate Valid()
      reads this
    {
      && prevSig == (if iterations == [] then None else Some(iterations[|iterations| - 1]))
      && distinctSigs == (set s | s in iterations)
      && (forall k: nat :: k > 1 ==> (Spinning(iterations, k) <==> k - 1 <= spinCount))
      && (spinCount > 0 ==> iterations != [])
    }

    constructor ()
      ensures Valid() && callsUsed == 0 && spinCount == 0 && degenerateRetries == 0 && iterations == []
    {
      callsUsed, spinCount, prevSig, distinctSigs, degenerateRetries, iterations := 0, 0, None, {}, 0, [];
    }

    /** `record`: one scored iteration. */
    method Record(sig: Signature)
      requires Valid()
      modifies `spinCount, `prevSig, `distinctSigs, `iterations
      ensures Valid() && iterations == old(iterations) + [sig]
    {
      SpinStep(iterations, sig);
      distinctSigs := distinctSigs + {sig};
      if sig != [] && prevSig == Some(sig) {
        spinCount := spinCount + 1;
      } else {
        spinCount := 0;
      }
      prevSig := Some(sig);
      iterations := iterations + [sig];
    }
  }

  lemma SpinStep(history: seq<Signature>, sig: Signature)
    ensures forall k: nat :: k > 1 ==> (Spinning(history + [sig], k) <==> Extends(history, sig, k))
  {
    var h := history + [sig];
    forall k: nat | k > 1 ensures Spinning(h, k) <==> Extends(history, sig, k) {
      if Spinning(h, k) {
        assert h[|h| - 2] == sig;
        assert forall j | |history| - (k - 1) <= j < |history| :: h[j] == history[j];
      }
      if Extends(history, sig, k) {
        assert forall j | |history| - (k - 1) <= j < |history| :: h[j] == history[j];
      }
    }
  }

  /** `sig` continues a run of `k - 1` equal signatures. */
  predicate Extends(history: seq<Signature>, sig: Signature, k: nat)
    requires k > 1
  {
    history != [] && sig != [] && history[|history| - 1] == sig && (k > 2 ==> Spinning(history, k - 1))
  }

  /** What one run of the loop hands back. `tested` lists the drafts that were run, in order; `bases` the version each
      re-draft was anchored on. */
  datatype Result = Result(
    outcome: LoopOutcome, code: string, callsUsed: nat, retries: nat, generations: nat,
    tested: seq<string>, bases: seq<string>)

  /** The most recent of the first `n` tested drafts that compiled, or nothing. */
  function LastCompiling(env: Env, tested: seq<string>, n: nat): string
    requires n <= |tested|
  {
    if n == 0 then []
    else if env.forge(n - 1).compiled then tested[n - 1]
    else LastCompiling(env, tested, n - 1)
  }

  function Budget(budgetCalls: int): nat {
    if budgetCalls < 1 then 1 else budgetCalls
  }

  function Times(n: nat, m: nat): nat {
    if n == 0 then 0 else Times(n - 1, m) + m
  }

  lemma {:induction false} TimesIsProduct(n: nat, m: nat)
    ensures Times(n, m) == n * m
  {
    if n > 0 {
      TimesIsProduct(n - 1, m);
    }
  }

  lemma {:induction false} TimesGrows(a: nat, b: nat, m: nat)
    requires a <= b
    ensures Times(a, m) <= Times(b, m) && Times(b + 1, m) == Times(b, m) + m && Times(1, m) == m
    decreases b
  {
    assert Times(1, m) == Times(0, m) + m;
    if a < b {
      TimesGrows(a, b - 1, m);
    }
  }

  /** The most model calls one draft with its re-rolls can take. */
  function PerDraft(readBudget: int, retryCap: int): nat {
    Times(AtLeastZero(retryCap) + 1, AtLeastZero(readBudget) + 2)
  }

  /** The last model turn of each draft so far: every draft but the last was blank. */
  predicate Rerolled(env: Env, from: nat, turns: seq<nat>, last: nat) {
    && turns != [] && turns[|turns| - 1] == last && from < turns[0]
    && forall j | 0 <= j < |turns| - 1 :: 0 < turns[j] < turns[j + 1] && Blank(env.reply(turns[j] - 1).code)
  }

  lemma OneMoreDraft(env: Env, from: nat, turns: seq<nat>, last: nat, next: nat)
    requires Rerolled(env, from, turns, last) && 0 < last < next && Blank(env.reply(last - 1).code)
    ensures Rerolled(env, from, turns + [next], next)
  {
    hide Blank;
  }

  lemma FirstDraft(env: Env, from: nat, next: nat)
    requires from < next
    ensures Rerolled(env, from, [next], next)
  {
  }

  /** The first part of an iteration: a draft, re-rolled while it is blank and the cap allows. */
  method Draft(env: Env, state: LoopState, generations0: nat, readBudget: int, retryCap: int)
    returns (code: string, generations: nat, ghost turns: seq<nat>)
    requires state.Valid()
    modifies state`degenerateRetries
    // One draft, and one more behind each blank one.
    ensures |turns| == 1 + state.degenerateRetries - old(state.degenerateRetries)
    ensures generations0 < generations && Rerolled(env, generations0, turns, generations)
    ensures code == env.reply(generations - 1).code
    ensures state.Valid()
    ensures generations <= generations0 + PerDraft(readBudget, retryCap)
    ensures old(state.degenerateRetries) <= state.degenerateRetries
        <= old(state.degenerateRetries) + AtLeastZero(retryCap)
    ensures Blank(code) ==> state.degenerateRetries == old(state.degenerateRetries) + AtLeastZero(retryCap)
  {
    hide Times, Blank, GetsReads, Spent, Rerolled;
    var retries: nat, used := 0, 0;
    ghost var forced;
    var round: nat := AtLeastZero(readBudget) + 2;
    TimesGrows(0, 1, round);
    code, generations, used, forced := GenerateWithReads(env, generations0, readBudget);
    turns := [generations];
    FirstDraft(env, generations0, generations);
    while Blank(code) && retries < retryCap
      invariant 0 <= retries <= AtLeastZero(retryCap) && state.Valid()
      invariant state.degenerateRetries == old(state.degenerateRetries) + retries
      invariant |turns| == 1 + retries && Rerolled(env, generations0, turns, generations)
      invariant generations > generations0 && code == env.reply(generations - 1).code
      invariant generations <= generations0 + Times(retries + 1, round)
      decreases retryCap - retries
    {
      TimesGrows(retries, retries + 1, round);
      retries := retries + 1;
      state.degenerateRetries := state.degenerateRetries + 1;
      ghost var last := generations;
      code, generations, used, forced := GenerateWithReads(env, generations, readBudget);
      OneMoreDraft(env, generations0, turns, last, generations);
      turns := turns + [generations];
    }
    TimesGrows(retries + 1, AtLeastZero(retryCap) + 1, round);
  }

  /** Every tested draft so far held code, failed, was recorded, and was followed by a re-draft anchored on the most
      recent draft that compiled. */
  predicate Kept(env: Env, tested: seq<string>, bases: seq<string>, iterations: seq<Signature>) {
    && |tested| == |bases| == |iterations|
    && forall k | 0 <= k < |tested| ::
      !Blank(tested[k]) && !env.forge(k).passed && iterations[k] == env.forge(k).Sig()
      && bases[k] == LastCompiling(env, tested, k + 1)
  }

  /** What a finished loop says about its history. */
  predicate Told(env: Env, r: Result, iterations: seq<Signature>) {
    // A re-roll is never a call: exactly the tested drafts are charged, and each held code.
    && r.callsUsed == |r.tested| && (forall k | 0 <= k < |r.tested| :: !Blank(r.tested[k]))
    // Each re-draft starts from the most recent draft that compiled.
    && |r.bases| <= |r.tested| && (forall k | 0 <= k < |r.bases| :: IsLatest(env, r.tested, k, r.bases[k]))
    // The loop triggers on the first pass, and on nothing else.
    && (r.outcome == Triggered <==> r.tested != [] && env.forge(|r.tested| - 1).passed)
    && (forall k | 0 <= k < |r.tested| - 1 :: !env.forge(k).passed)
    && (if r.outcome == NoCode then Blank(r.code) else r.tested != [] && r.code == r.tested[|r.tested| - 1])
    // Every tested draft but a triggering one is recorded, in order.
    && |iterations| == |r.tested| - (if r.outcome == Triggered then 1 else 0)
    && (forall k | 0 <= k < |iterations| :: Recorded(env.forge(k), iterations[k]))
  }

  /** `base` is the latest of the drafts up to the `k`-th that compiled, or nothing where none did. */
  predicate IsLatest(env: Env, tested: seq<string>, k: nat, base: string)
    requires k < |tested|
  {
    && (forall j | 0 <= j <= k && env.forge(j).compiled && (forall i | j < i <= k :: !env.forge(i).compiled) ::
          base == tested[j])
    && ((forall j | 0 <= j <= k :: !env.forge(j).compiled) ==> base == [])
  }

  /** A run is recorded by its failure, and by its error where it has none. */
  predicate Recorded(run: ForgeRun, sig: Signature) {
    if run.failSig == [] then sig == run.errorSig else sig == run.failSig
  }

  lemma {:induction false} LastCompilingIsLatest(env: Env, tested: seq<string>, k: nat)
    requires k < |tested|
    ensures IsLatest(env, tested, k, LastCompiling(env, tested, k + 1))
  {
    if !env.forge(k).compiled && k > 0 {
      LastCompilingIsLatest(env, tested, k - 1);
    }
  }

  lemma {:induction false} KeptStep(env: Env, tested: seq<string>, bases: seq<string>, iterations: seq<Signature>,
                                 code: string)
    requires Kept(env, tested, bases, iterations) && !Blank(code) && !env.forge(|tested|).passed
    ensures Kept(env, tested + [code],
                 bases + [if env.forge(|tested|).compiled then code else LastCompiling(env, tested, |tested|)],
                 iterations + [env.forge(|tested|).Sig()])
  {
    hide Blank, LastCompiling;
    LongerHistory(env, tested, code);
  }

  lemma ToldNoCode(env: Env, tested: seq<string>, bases: seq<string>, iterations: seq<Signature>, r: Result)
    requires Kept(env, tested, bases, iterations) && Blank(r.code)
    requires r.outcome == NoCode && r.tested == tested && r.bases == bases && r.callsUsed == |tested|
    ensures Told(env, r, iterations)
  {
    hide Blank, LastCompiling, IsLatest;
    forall k | 0 <= k < |bases| ensures IsLatest(env, tested, k, bases[k]) {
      LastCompilingIsLatest(env, tested, k);
    }
  }

  lemma ToldTested(env: Env, tested: seq<string>, bases: seq<string>, iterations: seq<Signature>, r: Result,
                   recorded: seq<Signature>)
    requires Kept(env, tested, bases, iterations) && !Blank(r.code)
    requires r.tested == tested + [r.code] && r.bases == bases && r.callsUsed == |tested| + 1 && r.outcome != NoCode
    requires r.outcome == Triggered <==> env.forge(|tested|).passed
    requires recorded == if r.outcome == Triggered then iterations else iterations + [env.forge(|tested|).Sig()]
    ensures Told(env, r, recorded)
  {
    hide Blank, LastCompiling, IsLatest;
    LongerHistory(env, tested, r.code);
    forall k | 0 <= k < |bases| ensures IsLatest(env, r.tested, k, bases[k]) {
      LastCompilingIsLatest(env, r.tested, k);
    }
  }

  /** `run`: draft (with re-rolls of empty turns), run, record, stop or re-draft from the last compiling version. */
  method RunLoop(env: Env, budgetCalls: int, spinK: int, readBudget: int, retryCap: int)
    returns (r: Result, state: LoopState, ghost turns: seq<nat>)
    ensures fresh(state) && state.Valid()
    // Every budget holds, whatever the model does.
    ensures r.callsUsed == state.callsUsed <= if budgetCalls < 1 then 1 else budgetCalls
    ensures r.retries == state.degenerateRetries <= Times(Budget(budgetCalls), AtLeastZero(retryCap))
    ensures r.generations <= Times(Budget(budgetCalls), PerDraft(readBudget, retryCap))
    ensures Told(env, r, state.iterations)
    // What the two early stops mean.
    ensures r.outcome == SpinStopped && 1 <= spinK ==> Spinning(state.iterations, spinK + 1)
    ensures r.outcome == BudgetExhausted ==> r.callsUsed >= budgetCalls || env.pastDeadline(|r.tested| - 1)
    ensures r.outcome == SpinStopped ==> r.callsUsed < budgetCalls && !env.pastDeadline(|r.tested| - 1)
    // The loop goes on behind a scored draft exactly when nothing stops it there.
    ensures |r.bases| == |r.tested| - if r.outcome == NoCode then 0 else 1
    ensures WentOn(env, state.iterations, |r.bases|, budgetCalls, spinK)
    // Every tested draft is what some model turn returned, in order.
    ensures Replied(env, r.tested, turns, r.generations)
  {
    hide Times, PerDraft, Blank, Spinning, LastCompiling, AtLeastZero, Kept, Told, WentOn, Replied, Rerolled;
    NothingCompiledYet(env);
    NothingScored(env, budgetCalls, spinK);
    turns := [];
    state := new LoopState();
    var lastCompiling: string := [];
    var tested: seq<string>, bases: seq<string>, generations: nat := [], [], 0;
    var cap, most, b := AtLeastZero(retryCap), PerDraft(readBudget, retryCap), Budget(budgetCalls);
    TimesZero(cap);
    TimesZero(most);
    while true
      invariant state.Valid() && fresh(state)
      invariant state.callsUsed == |tested| < b && Kept(env, tested, bases, state.iterations)
      invariant state.degenerateRetries <= Times(|tested|, cap) && generations <= Times(|tested|, most)
      invariant lastCompiling == LastCompiling(env, tested, |tested|)
      invariant |bases| == |tested| == |state.iterations|
      invariant WentOn(env, state.iterations, |tested|, budgetCalls, spinK) && Replied(env, tested, turns, generations)
      decreases b - |tested|
    {
      TimesGrows(|tested| + 1, b, cap);
      TimesGrows(|tested| + 1, b, most);
      TimesGrows(|tested|, |tested|, cap);
      TimesGrows(|tested|, |tested|, most);
      var code;
      ghost var drafts, sofar := [], generations;
      code, generations, drafts := Draft(env, state, generations, readBudget, retryCap);
      OneMoreReplied(env, tested, turns, sofar, code, generations);
      if Blank(code) {
        r := Result(NoCode, code, state.callsUsed, state.degenerateRetries, generations, tested, bases);
        ToldNoCode(env, tested, bases, state.iterations, r);
        return;
      }
      var forge := env.forge(|tested|);
      ghost var before, scored := tested, state.iterations;
      LongerHistory(env, tested, code);
      tested, turns := tested + [code], turns + [generations];
      state.callsUsed := state.callsUsed + 1;
      var outcome := Triggered;
      if !forge.passed {
        KeptStep(env, before, bases, scored, code);
        if forge.compiled {
          lastCompiling := code;
        }
        state.Record(forge.Sig());
        LongerWentOn(env, scored, forge.Sig(), budgetCalls, spinK);
        if state.callsUsed >= budgetCalls || env.pastDeadline(|tested| - 1) {
          outcome := BudgetExhausted;
        } else if state.spinCount >= spinK {
          outcome := SpinStopped;
        } else {
          bases := bases + [if forge.compiled then code else lastCompiling];
          NothingStops(env, scored, forge.Sig(), state, budgetCalls, spinK);
          continue;
        }
      }
      r := Result(outcome, code, state.callsUsed, state.degenerateRetries, generations, tested, bases);
      ToldTested(env, before, bases, scored, r, state.iterations);
      return;
    }
  }

  /** Behind the `k`-th scored draft no budget was spent, the deadline had not passed, and the last `spinK + 1`
      signatures were not one repeated signature; a bound below one stops every loop at its first failure. */
  predicate GoesOn(env: Env, iterations: seq<Signature>, k: nat, budgetCalls: int, spinK: int) {
    && k < |iterations| && k + 1 < budgetCalls && !env.pastDeadline(k)
    && 1 <= spinK && !Spinning(iterations[..k + 1], spinK + 1)
  }

  predicate WentOn(env: Env, iterations: seq<Signature>, n: nat, budgetCalls: int, spinK: int) {
    forall k | 0 <= k < n :: GoesOn(env, iterations, k, budgetCalls, spinK)
  }

  lemma NothingScored(env: Env, budgetCalls: int, spinK: int)
    ensures WentOn(env, [], 0, budgetCalls, spinK) && Replied(env, [], [], 0)
  {
  }

  lemma LongerWentOn(env: Env, scored: seq<Signature>, sig: Signature, budgetCalls: int, spinK: int)
    requires WentOn(env, scored, |scored|, budgetCalls, spinK)
    ensures WentOn(env, scored + [sig], |scored|, budgetCalls, spinK)
  {
    hide Spinning;
    forall k | 0 <= k < |scored| ensures GoesOn(env, scored + [sig], k, budgetCalls, spinK) {
      assert GoesOn(env, scored, k, budgetCalls, spinK) && (scored + [sig])[..k + 1] == scored[..k + 1];
    }
  }

  lemma NothingStops(env: Env, scored: seq<Signature>, sig: Signature, state: LoopState, budgetCalls: int, spinK: int)
    requires state.Valid() && state.iterations == scored + [sig] && state.callsUsed == |scored| + 1
    requires state.callsUsed < budgetCalls && !env.pastDeadline(|scored|) && state.spinCount < spinK
    requires WentOn(env, scored + [sig], |scored|, budgetCalls, spinK)
    ensures WentOn(env, scored + [sig], |scored| + 1, budgetCalls, spinK)
  {
    hide Spinning;
    assert (scored + [sig])[..|scored| + 1] == scored + [sig];
  }

  /** Each tested draft is the code of a model turn, later drafts of later turns. */
  predicate Replied(env: Env, tested: seq<string>, turns: seq<nat>, generations: nat) {
    && |turns| == |tested|
    && (forall k | 0 <= k < |turns| :: 0 < turns[k] <= generations && tested[k] == env.reply(turns[k] - 1).code)
    && (forall j, k | 0 <= j < k < |turns| :: turns[j] < turns[k])
  }

  lemma OneMoreReplied(env: Env, tested: seq<string>, turns: seq<nat>, sofar: nat, code: string, next: nat)
    requires Replied(env, tested, turns, sofar) && sofar < next && code == env.reply(next - 1).code
    ensures Replied(env, tested, turns, next) && Replied(env, tested + [code], turns + [next], next)
  {
  }

  lemma NothingCompiledYet(env: Env)
    ensures LastCompiling(env, [], 0) == [] && Kept(env, [], [], [])
  {
  }

  lemma TimesZero(m: nat)
    ensures Times(0, m) == 0
  {
  }

  lemma {:induction false} LastCompilingPrefix(env: Env, tested: seq<string>, more: seq<string>, n: nat)
    requires n <= |tested|
    ensures LastCompiling(env, tested + more, n) == LastCompiling(env, tested, n)
  {
    if n > 0 {
      LastCompilingPrefix(env, tested, more, n - 1);
    }
  }

  lemma LongerHistory(env: Env, tested: seq<string>, code: string)
    ensures forall n | 0 <= n <= |tested| :: LastCompiling(env, tested + [code], n) == LastCompiling(env, tested, n)
    ensures LastCompiling(env, tested + [code], |tested| + 1)
         == if env.forge(|tested|).compiled then code else LastCompiling(env, tested, |tested|)
  {
    forall n | 0 <= n <= |tested| ensures LastCompiling(env, tested + [code], n) == LastCompiling(env, tested, n) {
      LastCompilingPrefix(env, tested, [code], n);
    }
  }

  /** The bounds of `RunLoop` as products. */
  lemma BoundsAsProducts(budgetCalls: int, readBudget: int, retryCap: int)
    ensures Times(Budget(budgetCalls), AtLeastZero(retryCap)) == Budget(budgetCalls) * AtLeastZero(retryCap)
    ensures Times(Budget(budgetCalls), PerDraft(readBudget, retryCap))
         == Budget(budgetCalls) * ((AtLeastZero(retryCap) + 1) * (AtLeastZero(readBudget) + 2))
  {
    hide Times;
    TimesIsProduct(Budget(budgetCalls), AtLeastZero(retryCap));
    TimesIsProduct(Budget(budgetCalls), PerDraft(readBudget, retryCap));
    TimesIsProduct(AtLeastZero(retryCap) + 1, AtLeastZero(readBudget) + 2);
  }
}
