/** The dual compiled checkpoint: audit_agent/proof/compiled_checkpoint.py. */
module Checkpoint {

  import opened Options

  datatype Slot = Slot(source: string, attempt: nat, compiledReal: bool)
  datatype State = State(nonVacuous: Option<Slot>, anyCompile: Option<Slot>)

  const EMPTY: State := State(None, None)

  function RestoreTarget(s: State): Option<Slot> {
    if s.nonVacuous.Some? then s.nonVacuous else s.anyCompile
  }

  function RefreshSlots(s: State, source: string, attempt: nat, compiled: bool, compiledReal: bool): State {
    if !compiled then s
    else
      var slot := Slot(source, attempt, compiledReal);
      State(if compiledReal then Some(slot) else s.nonVacuous, Some(slot))
  }

  predicate ShouldRefuse(compiled: bool, targetPresent: bool) {
    !compiled && targetPresent
  }

  predicate ShouldEmitAdoptRefusal(verdictAvailable: bool, compiled: bool, targetPresent: bool) {
    verdictAvailable && ShouldRefuse(compiled, targetPresent)
  }

  predicate ShouldEndRestore(compiled: bool, targetPresent: bool) {
    !compiled && targetPresent
  }

  /** One attempt offered to the checkpoint: its body and the two verdicts on it. */
  datatype Offer = Offer(source: string, compiled: bool, sound: bool) {
    predicate CompiledReal() {
      compiled && sound
    }
  }

  function Replay(offers: seq<Offer>): State {
    if offers == [] then EMPTY
    else
      var n := |offers| - 1;
      var o := offers[n];
      RefreshSlots(Replay(offers[..n]), o.source, n + 1, o.compiled, o.CompiledReal())
  }

  predicate LastCompiled(offers: seq<Offer>, k: nat) {
    k < |offers| && offers[k].compiled && forall j | k < j < |offers| :: !offers[j].compiled
  }

  predicate LastReal(offers: seq<Offer>, k: nat) {
    k < |offers| && offers[k].CompiledReal() && forall j | k < j < |offers| :: !offers[j].CompiledReal()
  }

  predicate AnyCompiled(offers: seq<Offer>) {
    exists k | 0 <= k < |offers| :: offers[k].compiled
  }

  predicate AnyReal(offers: seq<Offer>) {
    exists k | 0 <= k < |offers| :: offers[k].CompiledReal()
  }

  /** There is something to restore exactly when some attempt compiled. */
  lemma {:induction false} RestorableIffCompiled(offers: seq<Offer>)
    ensures RestoreTarget(Replay(offers)).Some? <==> AnyCompiled(offers)
    ensures Replay(offers).nonVacuous.Some? <==> AnyReal(offers)
    ensures Replay(offers).anyCompile.Some? <==> AnyCompiled(offers)
  {
    if offers != [] {
      var n := |offers| - 1;
      var init := offers[..n];
      RestorableIffCompiled(init);
      assert forall k | 0 <= k < n :: init[k] == offers[k];
      assert AnyCompiled(offers) <==> AnyCompiled(init) || offers[n].compiled;
      assert AnyReal(offers) <==> AnyReal(init) || offers[n].CompiledReal();
    }
  }

  /** If any attempt was structurally real and compiled, the latest such body is restored, however many
      compiled-but-vacuous or non-compiling attempts came after it. */
  lemma {:induction false} RestoresLatestReal(offers: seq<Offer>, k: nat)
    requires LastReal(offers, k)
    ensures RestoreTarget(Replay(offers)) == Some(Slot(offers[k].source, k + 1, true))
    decreases |offers|
  {
    var n := |offers| - 1;
    if k < n {
      assert LastReal(offers[..n], k);
      assert !offers[n].CompiledReal();
      RestoresLatestReal(offers[..n], k);
      NonVacuousWins(offers[..n]);
    }
  }

  lemma {:induction false} NonVacuousWins(offers: seq<Offer>)
    ensures var s := Replay(offers); s.nonVacuous.None? ==> s.anyCompile.None? || !s.anyCompile.value.compiledReal
  {
    if offers != [] {
      NonVacuousWins(offers[..|offers| - 1]);
    }
  }

  /** Without any such attempt, the latest compiled body is restored. */
  lemma {:induction false} RestoresLatestCompiled(offers: seq<Offer>, k: nat)
    requires LastCompiled(offers, k) && !AnyReal(offers)
    ensures RestoreTarget(Replay(offers)) == Some(Slot(offers[k].source, k + 1, false))
    decreases |offers|
  {
    var n := |offers| - 1;
    RestorableIffCompiled(offers);
    if k < n {
      assert forall j | 0 <= j < n :: offers[..n][j] == offers[j];
      RestoresLatestCompiled(offers[..n], k);
    }
  }
}
