/** One finding's draft, run, repair, judge and quarantine cycle (`_process_finding` in
    scripts/poc_queue_runner.py), against an arbitrary model, fixer and sandbox. */
module ProofLifecycle {
  import opened Options
  import opened ScaffoldCauses
  import opened Checkpoint
  import opened Text

  /** What one sandbox run of the suite printed, as the two facts the runner reads off it: did the whole
      run exit 0, and does its output show that a test suite was built and ran. */
  datatype Test = Test(passed: bool, compiled: bool)
  datatype Reply = Ran(test: Test) | Unavailable | Raised

  /** One call into the sandbox: the bytes on the active path, and the answer. */
  datatype Run = Run(body: string, reply: Reply)

  datatype FixSource = NoFix | ReconstructionRefused | Patch
  datatype VerifyStatus = Verified | Survived | Unchecked(reason: VerifyReason)
  datatype VerifyReason =
    ReasonNoFix | ReasonReconstructionRefused | ReasonPatchFailed | ReasonPatchedNoBuild | ReasonInfra

  /** Everything outside the harness. The `n`-th call gets the `n`-th answer, so an environment is an
      arbitrary, adversarial script; the defect check is a function of the body. */
  datatype Env = Env(
    sandbox: nat -> Reply,
    repair: nat -> Option<string>,
    fix: nat -> Option<string>,
    postModel: string -> string,
    defective: string -> bool,
    fixSource: FixSource,
    patchApplies: bool,
    patchedRun: Reply)

  const DET_REPAIR_ROUNDS: nat := 2

  datatype Event =
    | Written(attempt: int)
    | Tested(attempt: int, test: Test, realPass: bool, compiledReal: bool)
    | AdoptRefused(attempt: int)
    | Note
    | RunErrorNote
    | SandboxUnavailableNote

  predicate Compiled(r: Run) {
    r.reply.Ran? && r.reply.test.compiled
  }

  predicate AnyRunCompiled(runs: seq<Run>) {
    exists k | 0 <= k < |runs| :: Compiled(runs[k])
  }

  /** `body` is the body of some run that compiled. */
  predicate HasCompiled(runs: seq<Run>, body: string) {
    exists k | 0 <= k < |runs| :: Compiled(runs[k]) && runs[k].body == body
  }

  predicate Keeps(o: Outcome) {
    o in {PassedVerified, PassedUnchecked, CompiledOnly}
  }

  /** The file on the active path is byte for byte what the sandbox last ran, that run compiled, and the
      body has no structural defect. */
  predicate ActiveIsProven(env: Env, runs: seq<Run>, active: Option<string>) {
    && runs != [] && Compiled(runs[|runs| - 1])
    && active == Some(runs[|runs| - 1].body)
    && !env.defective(runs[|runs| - 1].body)
  }

  /** `mutation_verify` after its inputs are resolved: the patched copy, built and run with the same file. */
  method MutationVerify(env: Env, body: string) returns (status: VerifyStatus, patched: Option<Run>)
    ensures status == Verified <==>
      env.fixSource == Patch && env.patchApplies && env.patchedRun.Ran?
      && env.patchedRun.test.compiled && !env.patchedRun.test.passed
    ensures status == Survived <==>
      env.fixSource == Patch && env.patchApplies && env.patchedRun.Ran?
      && env.patchedRun.test.compiled && env.patchedRun.test.passed
    ensures status == Unchecked(ReasonNoFix) <==> env.fixSource == NoFix
    ensures status == Unchecked(ReasonReconstructionRefused) <==> env.fixSource == ReconstructionRefused
    ensures status == Unchecked(ReasonPatchFailed) <==> env.fixSource == Patch && !env.patchApplies
    ensures status == Unchecked(ReasonInfra) <==> env.fixSource == Patch && env.patchApplies && !env.patchedRun.Ran?
    ensures status == Unchecked(ReasonPatchedNoBuild) <==>
      env.fixSource == Patch && env.patchApplies && env.patchedRun.Ran? && !env.patchedRun.test.compiled
    ensures patched == if env.fixSource == Patch && env.patchApplies then Some(Run(body, env.patchedRun)) else None
  {
    if env.fixSource == NoFix {
      return Unchecked(ReasonNoFix), None;
    }
    if env.fixSource == ReconstructionRefused {
      return Unchecked(ReasonReconstructionRefused), None;
    }
    if !env.patchApplies {
      return Unchecked(ReasonPatchFailed), None;
    }
    patched := Some(Run(body, env.patchedRun));
    if !env.patchedRun.Ran? {
      return Unchecked(ReasonInfra), patched;
    }
    if !env.patchedRun.test.compiled {
      return Unchecked(ReasonPatchedNoBuild), patched;
    }
    if env.patchedRun.test.passed {
      return Survived, patched;
    }
    return Verified, patched;
  }

  /** What stands on the active path at the end of an attempt whose sandbox run returned. */
  datatype Settled = Settled(runs: nat, active: string)

  predicate SettledOnCompiled(runs: seq<Run>, s: Settled) {
    s.runs <= |runs| && (AnyRunCompiled(runs[..s.runs]) ==> HasCompiled(runs[..s.runs], s.active))
  }

  lemma HasCompiledGrows(runs: seq<Run>, r: Run, body: string)
    requires HasCompiled(runs, body)
    ensures HasCompiled(runs + [r], body)
  {
    var k :| 0 <= k < |runs| && Compiled(runs[k]) && runs[k].body == body;
    assert (runs + [r])[k] == runs[k];
  }

  lemma CompiledSomewhere(runs: seq<Run>, k: nat)
    requires k < |runs| && Compiled(runs[k])
    ensures AnyRunCompiled(runs)
  {
  }

  lemma AnyRunCompiledStep(runs: seq<Run>, r: Run)
    ensures AnyRunCompiled(runs + [r]) <==> AnyRunCompiled(runs) || Compiled(r)
  {
    if AnyRunCompiled(runs) {
      var k :| 0 <= k < |runs| && Compiled(runs[k]);
      assert (runs + [r])[k] == runs[k];
    }
    if Compiled(r) {
      assert (runs + [r])[|runs|] == r;
    }
  }

  lemma LastRunCompiled(runs: seq<Run>, r: Run)
    requires Compiled(r)
    ensures HasCompiled(runs + [r], r.body)
  {
    assert (runs + [r])[|runs|] == r;
  }

  /** The checkpoint speaks about the runs so far: it holds compiled bodies, and is empty only if none compiled. */
  predicate Tracks(runs: seq<Run>, cp: State) {
    && (RestoreTarget(cp).Some? <==> AnyRunCompiled(runs))
    && (RestoreTarget(cp).Some? ==> HasCompiled(runs, RestoreTarget(cp).value.source))
    && (cp.anyCompile.Some? ==> HasCompiled(runs, cp.anyCompile.value.source))
  }

  predicate Scripted(env: Env, runs: seq<Run>) {
    forall k | 0 <= k < |runs| :: runs[k].reply == env.sandbox(k)
  }

  predicate SomeReply(runs: seq<Run>, t: Test) {
    exists k | 0 <= k < |runs| :: runs[k].reply == Ran(t)
  }

  /** A body with the last answer that could be read for it, after `asked` calls into the sandbox and `repairs` into
      the repairer. */
  datatype Draft = Draft(code: string, test: Test, asked: nat, repairs: nat)

  /** What the script makes of a draft in up to `rounds` rounds: a build ends the repair, and so do a repairer that has
      nothing to rewrite and a run that cannot be read, which leaves the rewritten body with the answer before it. */
  function Repaired(env: Env, d: Draft, rounds: nat): Draft
    decreases rounds
  {
    if rounds == 0 || d.test.compiled then d
    else
      match env.repair(d.repairs)
      case None => d.(repairs := d.repairs + 1)
      case Some(code) =>
        match env.sandbox(d.asked)
        case Ran(test) => Repaired(env, Draft(code, test, d.asked + 1, d.repairs + 1), rounds - 1)
        case _ => Draft(code, d.test, d.asked + 1, d.repairs + 1)
  }

  lemma RepairRound(env: Env, d: Draft, rounds: nat)
    ensures rounds == 0 || d.test.compiled ==> Repaired(env, d, rounds) == d
    ensures rounds > 0 && !d.test.compiled && env.repair(d.repairs).None? ==>
      Repaired(env, d, rounds) == d.(repairs := d.repairs + 1)
    ensures rounds > 0 && !d.test.compiled && env.repair(d.repairs).Some? && !env.sandbox(d.asked).Ran? ==>
      Repaired(env, d, rounds) == Draft(env.repair(d.repairs).value, d.test, d.asked + 1, d.repairs + 1)
    ensures rounds > 0 && !d.test.compiled && env.repair(d.repairs).Some? && env.sandbox(d.asked).Ran? ==>
      Repaired(env, d, rounds)
      == Repaired(env, Draft(env.repair(d.repairs).value, env.sandbox(d.asked).test, d.asked + 1, d.repairs + 1),
                  rounds - 1)
  {
  }

  lemma SomeReplyAt(runs: seq<Run>, k: nat, t: Test)
    requires k < |runs| && runs[k].reply == Ran(t)
    ensures SomeReply(runs, t)
  {
  }

  /** The runs of one attempt: the first is read, and each further one is of the repairer's rewriting, after a run that
      was read and did not build. `repairs` is how often the repairer had been asked before. */
  predicate RunsOn(env: Env, rs: seq<Run>, repairs: nat) {
    && 1 <= |rs| <= 3 && rs[0].reply.Ran?
    && forall j | 0 <= j < |rs| - 1 :: Rewritten(env, rs, repairs, j)
  }

  predicate Rewritten(env: Env, rs: seq<Run>, repairs: nat, j: nat)
    requires j < |rs| - 1
  {
    rs[j].reply.Ran? && !rs[j].reply.test.compiled && env.repair(repairs + j) == Some(rs[j + 1].body)
  }

  /** They end with a build, an unread run, a repairer that has nothing to rewrite, or the third. */
  predicate RunsOut(env: Env, rs: seq<Run>, repairs: nat)
    requires rs != []
  {
    |rs| == 3 || Compiled(rs[|rs| - 1]) || !rs[|rs| - 1].reply.Ran? || env.repair(repairs + |rs| - 1).None?
  }

  /** How often those runs asked the repairer: for each rewriting, and once in vain. */
  function Asked(rs: seq<Run>): nat
    requires rs != []
  {
    if |rs| < 3 && rs[|rs| - 1].reply.Ran? && !Compiled(rs[|rs| - 1]) then |rs| else |rs| - 1
  }

  /** The last answer that was read. */
  function LastRead(rs: seq<Run>): Test {
    if rs == [] then Test(false, false)
    else if rs[|rs| - 1].reply.Ran? then rs[|rs| - 1].reply.test
    else LastRead(rs[..|rs| - 1])
  }

  lemma OneRunMore(env: Env, rs: seq<Run>, repairs: nat, run: Run)
    requires RunsOn(env, rs, repairs) && |rs| < 3 && rs[|rs| - 1].reply.Ran? && !rs[|rs| - 1].reply.test.compiled
    requires env.repair(repairs + |rs| - 1) == Some(run.body)
    ensures RunsOn(env, rs + [run], repairs)
    ensures LastRead(rs + [run]) == if run.reply.Ran? then run.reply.test else LastRead(rs)
  {
    var more := rs + [run];
    assert more[..|rs|] == rs;
    forall j | 0 <= j < |more| - 1 ensures Rewritten(env, more, repairs, j) {
      assert more[j] == rs[j];
      assert j < |rs| - 1 ==> Rewritten(env, rs, repairs, j);
    }
  }

  lemma OneRun(env: Env, run: Run, repairs: nat)
    requires run.reply.Ran?
    ensures RunsOn(env, [run], repairs) && LastRead([run]) == run.reply.test
  {
  }

  /** The bounded in-place compile repair: rewrites and re-runs without spending an attempt. */
  method DetRepair(env: Env, code0: string, test0: Test, runs0: seq<Run>, repairs0: nat)
    returns (code: string, test: Test, runs: seq<Run>, repairs: nat, log: seq<Event>, ghost own: seq<Run>)
    requires runs0 != [] && runs0[|runs0| - 1] == Run(code0, Ran(test0)) && Scripted(env, runs0)
    ensures runs0 <= runs && |runs| <= |runs0| + DET_REPAIR_ROUNDS && Scripted(env, runs)
    ensures runs[|runs| - 1].body == code && SomeReply(runs, test)
    ensures test.compiled <==> Compiled(runs[|runs| - 1])
    ensures test.compiled ==> runs[|runs| - 1].reply == Ran(test)
    ensures AnyRunCompiled(runs) <==> AnyRunCompiled(runs0) || test.compiled
    ensures forall b :: HasCompiled(runs0, b) ==> HasCompiled(runs, b)
    ensures forall k | |runs0| - 1 <= k < |runs| - 1 :: !Compiled(runs[k])
    ensures Repaired(env, Draft(code0, test0, |runs0|, repairs0), DET_REPAIR_ROUNDS)
         == Draft(code, test, |runs|, repairs)
    // Run by run: what was rewritten, and why it stopped there.
    ensures runs == runs0[..|runs0| - 1] + own && own[0] == runs0[|runs0| - 1]
    ensures RunsOn(env, own, repairs0) && RunsOut(env, own, repairs0) && test == LastRead(own)
    ensures repairs == repairs0 + Asked(own)
  {
    hide AnyRunCompiled, HasCompiled, Scripted, SomeReply, Repaired, LastRead, RunsOn;
    code, test, runs, repairs, log := code0, test0, runs0, repairs0, [];
    own := [runs0[|runs0| - 1]];
    OneRun(env, own[0], repairs);
    if test0.compiled {
      CompiledSomewhere(runs0, |runs0| - 1);
    }
    var det := 0;
    while det < DET_REPAIR_ROUNDS
      invariant 0 <= det <= DET_REPAIR_ROUNDS
      invariant runs0 <= runs && |runs| <= |runs0| + det && Scripted(env, runs)
      invariant runs[|runs| - 1] == Run(code, Ran(test))
      invariant AnyRunCompiled(runs) <==> AnyRunCompiled(runs0) || test.compiled
      invariant forall b :: HasCompiled(runs0, b) ==> HasCompiled(runs, b)
      invariant forall k | |runs0| - 1 <= k < |runs| - 1 :: !Compiled(runs[k])
      invariant Repaired(env, Draft(code0, test0, |runs0|, repairs0), DET_REPAIR_ROUNDS)
             == Repaired(env, Draft(code, test, |runs|, repairs), DET_REPAIR_ROUNDS - det)
      invariant runs == runs0[..|runs0| - 1] + own && own[0] == runs0[|runs0| - 1]
      invariant |own| == det + 1 && repairs == repairs0 + det
      invariant RunsOn(env, own, repairs0) && test == LastRead(own)
    {
      SomeReplyAt(runs, |runs| - 1, test);
      RepairRound(env, Draft(code, test, |runs|, repairs), DET_REPAIR_ROUNDS - det);
      if test.compiled {
        return;
      }
      var rewritten := env.repair(repairs);
      repairs := repairs + 1;
      if rewritten.None? {
        return;
      }
      code := rewritten.value;
      log := log + [Note];
      var run := Run(code, env.sandbox(|runs|));
      AnyRunCompiledStep(runs, run);
      ScriptStep(env, runs, run);
      forall b | HasCompiled(runs, b) ensures HasCompiled(runs + [run], b) {
        HasCompiledGrows(runs, run, b);
      }
      SomeReplyAt(runs + [run], |runs| - 1, test);
      OneRunMore(env, own, repairs0, run);
      runs, own := runs + [run], own + [run];
      if !run.reply.Ran? {
        log := log + [RunErrorNote];
        return;
      }
      test := run.reply.test;
      det := det + 1;
    }
    SomeReplyAt(runs, |runs| - 1, test);
    RepairRound(env, Draft(code, test, |runs|, repairs), 0);
  }

  /** The outcome of a last attempt that neither passed for real nor met the compile bar. */
  function ExhaustedOutcome(test: Test, defective: bool): Outcome {
    if test.passed then VacuousPass
    else if test.compiled && !defective then RevertedExhausted
    else if test.compiled then CompileOnlyDefective
    else Exhausted
  }

  datatype Verdict = Verdict(test: Test, defective: bool) {
    predicate RealPass() {
      test.passed && !defective
    }

    predicate CompiledReal() {
      test.compiled && !defective
    }
  }

  datatype Finished = Finished(
    outcome: Outcome, wrote: bool, active: Option<string>, quarantined: Option<string>,
    runs: seq<Run>, settled: seq<Settled>, last: Option<Verdict>, patched: Option<Run>, fixes: nat, log: seq<Event>)

  /** A sandbox whose every clean exit did run a test suite. */
  ghost predicate BuildsWhatItPasses(env: Env) {
    forall n: nat :: env.sandbox(n).Ran? && env.sandbox(n).test.passed ==> env.sandbox(n).test.compiled
  }

  predicate PatchSurvives(env: Env) {
    env.fixSource == Patch && env.patchApplies && env.patchedRun == Ran(Test(true, true))
  }

  /** Where the loop stands before an attempt: its draft, how often the sandbox, the repairer and the fixer have been
      asked, and the checkpoint. */
  datatype Turn = Turn(code: string, asked: nat, repairs: nat, fixes: nat, cp: State)

  function Begin(code: string): Turn {
    Turn(code, 0, 0, 0, EMPTY)
  }

  /** The draft the script leaves in the attempt begun at `t`, repaired in place. */
  function DraftOf(env: Env, t: Turn): Draft
    requires env.sandbox(t.asked).Ran?
  {
    Repaired(env, Draft(t.code, env.sandbox(t.asked).test, t.asked + 1, t.repairs), DET_REPAIR_ROUNDS)
  }

  function VerdictOf(env: Env, t: Turn): Verdict
    requires env.sandbox(t.asked).Ran?
  {
    Verdict(DraftOf(env, t).test, env.defective(DraftOf(env, t).code))
  }

  /** The same once the attempt is over: the slots refreshed, or a draft that did not build replaced by the target. */
  function Kept(env: Env, t: Turn): (k: Turn)
    requires env.sandbox(t.asked).Ran?
    ensures k.fixes == t.fixes
  {
    var d := DraftOf(env, t);
    Turn(if !d.test.compiled && RestoreTarget(t.cp).Some? then RestoreTarget(t.cp).value.source else d.code,
         d.asked, d.repairs, t.fixes,
         RefreshSlots(t.cp, d.code, t.fixes + 1, d.test.compiled, VerdictOf(env, t).CompiledReal()))
  }

  /** The next attempt's draft: the fixer's code, or the kept one when the fixer returned none. */
  function Fixed(env: Env, t: Turn): Turn
    requires env.fix(t.fixes).Some?
  {
    var reply := env.fix(t.fixes).value;
    t.(code := env.postModel(if Blank(reply) && t.code != [] then t.code else reply), fixes := t.fixes + 1)
  }

  /** In the script, with `left` attempts to go: the reply that settles an attempt is a clean exit that built no suite,
      on a body without defect, and the falsification run does not survive. Every earlier attempt is read, settles
      nothing, and gets a fix. */
  predicate SettlesUnbuilt(env: Env, t: Turn, left: nat, requirePass: bool)
    decreases left
  {
    left > 0 && env.sandbox(t.asked).Ran? &&
    var v := VerdictOf(env, t);
    if v.RealPass() then !v.test.compiled && !PatchSurvives(env)
    else
      !(v.CompiledReal() && !requirePass)
      && env.fix(t.fixes).Some? && SettlesUnbuilt(env, Fixed(env, Kept(env, t)), left - 1, requirePass)
  }

  lemma SettlesStep(env: Env, t: Turn, left: nat, requirePass: bool)
    requires left > 0
    ensures !env.sandbox(t.asked).Ran? ==> !SettlesUnbuilt(env, t, left, requirePass)
    ensures env.sandbox(t.asked).Ran? && VerdictOf(env, t).RealPass() ==>
      (SettlesUnbuilt(env, t, left, requirePass) <==> !VerdictOf(env, t).test.compiled && !PatchSurvives(env))
    ensures env.sandbox(t.asked).Ran? && !VerdictOf(env, t).RealPass() ==>
      (SettlesUnbuilt(env, t, left, requirePass)
       <==> !(VerdictOf(env, t).CompiledReal() && !requirePass) && env.fix(t.fixes).Some?
            && SettlesUnbuilt(env, Fixed(env, Kept(env, t)), left - 1, requirePass))
    ensures left == 1 && SettlesUnbuilt(env, t, left, requirePass) ==> VerdictOf(env, t).RealPass()
  {
    hide Kept, VerdictOf, Fixed, DraftOf;
  }

  lemma NothingLeft(env: Env, t: Turn, requirePass: bool)
    ensures !SettlesUnbuilt(env, t, 0, requirePass)
  {
  }

  /** The outcome a real pass gets from the falsification run. */
  function PassOutcome(env: Env): Outcome {
    if env.fixSource != Patch || !env.patchApplies || !env.patchedRun.Ran? || !env.patchedRun.test.compiled
    then PassedUnchecked
    else if env.patchedRun.test.passed then UnverifiedPass
    else PassedVerified
  }

  /** What a verdict settles, if anything. */
  function JudgedAs(env: Env, v: Verdict, isLast: bool, requirePass: bool): Option<Outcome> {
    if v.RealPass() then Some(PassOutcome(env))
    else if v.CompiledReal() && !requirePass then Some(CompiledOnly)
    else if isLast then Some(ExhaustedOutcome(v.test, v.defective))
    else None
  }

  /** How a finding closes: its outcome, how often the fixer was asked, and the last verdict. */
  datatype Close = Close(outcome: Outcome, fixes: nat, last: Option<Verdict>)

  /** How the script closes a finding from the attempt begun at `t`, with `left` attempts to go and `last` the verdict
      before. The attempt numbered `attempts` is the last one there is; the agentic loop has `left` at one whatever
      that number. */
  function Closing(env: Env, t: Turn, last: Option<Verdict>, left: nat, attempts: int, requirePass: bool): Close
    decreases left
  {
    if left == 0 then Close(Unknown, t.fixes, last)
    else
      match env.sandbox(t.asked)
      case Unavailable => Close(SandboxUnavailable, t.fixes, last)
      case Raised => Close(RunError, t.fixes, last)
      case Ran(_) =>
        var v := VerdictOf(env, t);
        var judged := JudgedAs(env, v, t.fixes + 1 == attempts, requirePass);
        if judged.Some? then Close(judged.value, t.fixes, Some(v))
        else if env.fix(t.fixes).None? then Close(FixFailed, t.fixes + 1, Some(v))
        else Closing(env, Fixed(env, Kept(env, t)), Some(v), left - 1, attempts, requirePass)
  }

  lemma ClosingStep(env: Env, t: Turn, last: Option<Verdict>, left: nat, attempts: int, requirePass: bool)
    ensures left == 0 ==> Closing(env, t, last, left, attempts, requirePass) == Close(Unknown, t.fixes, last)
    ensures left > 0 && env.sandbox(t.asked).Unavailable? ==>
      Closing(env, t, last, left, attempts, requirePass) == Close(SandboxUnavailable, t.fixes, last)
    ensures left > 0 && env.sandbox(t.asked).Raised? ==>
      Closing(env, t, last, left, attempts, requirePass) == Close(RunError, t.fixes, last)
    ensures left > 0 && env.sandbox(t.asked).Ran? ==>
      var v := VerdictOf(env, t);
      var judged := JudgedAs(env, v, t.fixes + 1 == attempts, requirePass);
      Closing(env, t, last, left, attempts, requirePass)
      == if judged.Some? then Close(judged.value, t.fixes, Some(v))
         else if env.fix(t.fixes).None? then Close(FixFailed, t.fixes + 1, Some(v))
         else Closing(env, Fixed(env, Kept(env, t)), Some(v), left - 1, attempts, requirePass)
  {
    hide Kept, VerdictOf, Fixed, DraftOf, JudgedAs;
  }

  /** A finding closes on an unbuilt pass exactly when the script settles it so. */
  lemma {:induction false} ClosesUnbuiltIff(env: Env, t: Turn, last: Option<Verdict>, left: nat, attempts: int,
                                            requirePass: bool)
    requires left <= 1 || t.fixes + left == attempts
    ensures var c := Closing(env, t, last, left, attempts, requirePass);
      SettlesUnbuilt(env, t, left, requirePass)
      <==> c.outcome in {PassedVerified, PassedUnchecked} && c.last.Some? && !c.last.value.test.compiled
    decreases left
  {
    hide Kept, VerdictOf, DraftOf, Closing, SettlesUnbuilt;
    ClosingStep(env, t, last, left, attempts, requirePass);
    if left == 0 {
      NothingLeft(env, t, requirePass);
    } else {
      SettlesStep(env, t, left, requirePass);
      if env.sandbox(t.asked).Ran? && env.fix(t.fixes).Some? {
        ClosesUnbuiltIff(env, Fixed(env, Kept(env, t)), Some(VerdictOf(env, t)), left - 1, attempts, requirePass);
      }
    }
  }

  /** What the last verdict was, for each outcome that it decides; the last four close the attempt that uses up all. */
  predicate VerdictSays(c: Close, attempts: int, requirePass: bool) {
    match c.outcome
    case PassedVerified => c.last.Some? && c.last.value.RealPass()
    case UnverifiedPass => c.last.Some? && c.last.value.RealPass()
    case PassedUnchecked => c.last.Some? && c.last.value.RealPass()
    case CompiledOnly => c.last.Some? && c.last.value.CompiledReal() && !requirePass
    case Unknown => true
    case SandboxUnavailable => true
    case RunError => true
    case FixFailed => true
    case VacuousPass =>
      c.last.Some? && c.last.value.test.passed && c.last.value.defective && c.fixes + 1 == attempts
    case RevertedExhausted =>
      && c.last.Some? && !c.last.value.test.passed && c.last.value.test.compiled && !c.last.value.defective
      && requirePass && c.fixes + 1 == attempts
    case CompileOnlyDefective =>
      && c.last.Some? && !c.last.value.test.passed && c.last.value.test.compiled && c.last.value.defective
      && c.fixes + 1 == attempts
    case Exhausted =>
      c.last.Some? && !c.last.value.test.passed && !c.last.value.test.compiled && c.fixes + 1 == attempts
    case _ => false
  }

  lemma KeepingSays(c: Close, attempts: int, requirePass: bool)
    requires VerdictSays(c, attempts, requirePass) && Keeps(c.outcome)
    ensures c.last.Some? && !c.last.value.defective && (c.outcome == CompiledOnly ==> c.last.value.test.compiled)
  {
  }

  lemma {:induction false} ClosingMeans(env: Env, t: Turn, last: Option<Verdict>, left: nat, attempts: int,
                                        requirePass: bool)
    ensures VerdictSays(Closing(env, t, last, left, attempts, requirePass), attempts, requirePass)
    decreases left
  {
    hide Kept, VerdictOf, DraftOf, Closing;
    ClosingStep(env, t, last, left, attempts, requirePass);
    if left > 0 && env.sandbox(t.asked).Ran? && env.fix(t.fixes).Some? {
      ClosingMeans(env, Fixed(env, Kept(env, t)), Some(VerdictOf(env, t)), left - 1, attempts, requirePass);
    }
  }

  /** With all its attempts to go a finding always closes with an outcome, before the fixer is asked once too often. */
  lemma {:induction false} ClosesInTime(env: Env, t: Turn, last: Option<Verdict>, left: nat, requirePass: bool)
    requires left > 0
    ensures var c := Closing(env, t, last, left, t.fixes + left, requirePass);
      c.outcome != Unknown && c.fixes < t.fixes + left
    decreases left
  {
    hide Kept, VerdictOf, DraftOf, Closing;
    ClosingStep(env, t, last, left, t.fixes + left, requirePass);
    if left > 1 && env.sandbox(t.asked).Ran? && env.fix(t.fixes).Some? {
      ClosesInTime(env, Fixed(env, Kept(env, t)), Some(VerdictOf(env, t)), left - 1, requirePass);
    }
  }

  /** The agentic loop's one draft, judged and found wanting, goes back to the fixer unless exactly one attempt was
      asked for. */
  lemma AgenticDraftGoesBackIff(env: Env, code: string, attempts: int, requirePass: bool)
    requires env.sandbox(0).Ran? && JudgedAs(env, VerdictOf(env, Begin(code)), false, requirePass).None?
    ensures var v, c := VerdictOf(env, Begin(code)), Closing(env, Begin(code), None, 1, attempts, requirePass);
      c == if attempts == 1 then Close(ExhaustedOutcome(v.test, v.defective), 0, Some(v))
           else Close(if env.fix(0).Some? then Unknown else FixFailed, 1, Some(v))
  {
    hide Kept, VerdictOf, DraftOf, Closing;
    var t := Begin(code);
    ClosingStep(env, t, None, 1, attempts, requirePass);
    if env.fix(0).Some? {
      ClosingStep(env, Fixed(env, Kept(env, t)), Some(VerdictOf(env, t)), 0, attempts, requirePass);
    }
  }

  lemma AgenticClose(env: Env, code: string, attempts: int, requirePass: bool)
    ensures var c := Closing(env, Begin(code), None, 1, attempts, requirePass);
      c.last.Some? && !c.last.value.RealPass() && !(c.last.value.CompiledReal() && !requirePass)
      ==> (c.fixes == 0 <==> attempts == 1) && (attempts != 1 ==> c.outcome in {Unknown, FixFailed})
  {
    hide VerdictOf, Closing;
    ClosingStep(env, Begin(code), None, 1, attempts, requirePass);
    if env.sandbox(0).Ran? && JudgedAs(env, VerdictOf(env, Begin(code)), false, requirePass).None? {
      AgenticDraftGoesBackIff(env, code, attempts, requirePass);
    }
  }

  /** A draft that builds and fails where a pass is required, with two attempts asked for: the fixer is asked, its code
      is never run, and the finding closes without an outcome. With one, it closes as reverted. */
  lemma AgenticDraftGoesBack()
    ensures var env := Script(Ran(Test(false, true)), Raised, _ => None, Some("b"));
      var v := Verdict(Test(false, true), false);
      && Closing(env, Begin("a"), None, 1, 2, true) == Close(Unknown, 1, Some(v))
      && Closing(env, Begin("a"), None, 1, 1, true) == Close(RevertedExhausted, 0, Some(v))
  {
    var env := Script(Ran(Test(false, true)), Raised, _ => None, Some("b"));
    assert VerdictOf(env, Begin("a")) == Verdict(Test(false, true), false);
    AgenticDraftGoesBackIff(env, "a", 2, true);
    AgenticDraftGoesBackIff(env, "a", 1, true);
  }

  lemma {:induction false} BuiltPassesSettleBuilt(env: Env, t: Turn, left: nat, requirePass: bool)
    requires BuildsWhatItPasses(env)
    ensures !SettlesUnbuilt(env, t, left, requirePass)
    decreases left
  {
    hide Repaired, Kept, Fixed;
    if left > 0 && env.sandbox(t.asked).Ran? {
      RepairedIsReply(env, Draft(t.code, env.sandbox(t.asked).test, t.asked + 1, t.repairs), DET_REPAIR_ROUNDS);
      if env.fix(t.fixes).Some? {
        BuiltPassesSettleBuilt(env, Fixed(env, Kept(env, t)), left - 1, requirePass);
      }
    }
  }

  lemma {:induction false} RepairedIsReply(env: Env, d: Draft, rounds: nat)
    requires BuildsWhatItPasses(env) && (d.test.passed ==> d.test.compiled)
    ensures var d' := Repaired(env, d, rounds); d'.test.passed ==> d'.test.compiled
    decreases rounds
  {
    if rounds > 0 && !d.test.compiled && env.repair(d.repairs).Some? && env.sandbox(d.asked).Ran? {
      RepairedIsReply(env, Draft(env.repair(d.repairs).value, env.sandbox(d.asked).test, d.asked + 1, d.repairs + 1),
                      rounds - 1);
    }
  }

  /** A script of two sandbox answers, the second for good, with these answers of the repairer and the fixer: no body
      has a defect, and there is no patch to run. */
  function Script(first: Reply, second: Reply, repair: nat -> Option<string>, fix: Option<string>): Env {
    Env(n => if n == 0 then first else second, repair, _ => fix, c => c, _ => false, NoFix, false, Unavailable)
  }

  /** The first attempt builds and fails where a pass is required, the second exits 0 and builds nothing: the finding is
      settled on the first attempt's body. */
  lemma SecondAttemptUnbuilt()
    ensures var env := Script(Ran(Test(false, true)), Ran(Test(true, false)), _ => None, Some("b"));
      && SettlesUnbuilt(env, Begin("a"), 2, true)
      && Kept(env, Fixed(env, Kept(env, Begin("a")))).code == "a"
  {
  }

  /** The rewritten body exits 0 and builds nothing. */
  lemma RepairedAttemptUnbuilt(requirePass: bool)
    ensures var once := (n: nat) => if n == 0 then Some("b") else None;
      var env := Script(Ran(Test(false, false)), Ran(Test(true, false)), once, None);
      SettlesUnbuilt(env, Begin("a"), 1, requirePass) && Kept(env, Begin("a")).code == "b"
  {
  }

  /** The first body exits 0 and builds nothing, and the run of the rewritten one raises: the answer for the first body
      settles the finding on the second, of which no answer was read. */
  lemma UnreadRepairUnbuilt(requirePass: bool)
    ensures var env := Script(Ran(Test(true, false)), Raised, _ => Some("b"), None);
      SettlesUnbuilt(env, Begin("a"), 1, requirePass) && Kept(env, Begin("a")).code == "b"
  {
  }

  // ---- the attempts told one after another -------------------------------

  /** One judged attempt: the draft it began with, its sandbox runs, how often the repairer had been asked before, and
      the file it left on the active path. */
  datatype Try = Try(draft: string, runs: seq<Run>, repairs: nat, left: string)

  predicate Tried(env: Env, t: Try) {
    RunsOn(env, t.runs, t.repairs) && RunsOut(env, t.runs, t.repairs) && t.runs[0].body == t.draft
  }

  function VerdictBy(env: Env, t: Try): Verdict
    requires t.runs != []
  {
    Verdict(LastRead(t.runs), env.defective(t.runs[|t.runs| - 1].body))
  }

  function RunsOf(tries: seq<Try>): seq<Run> {
    if tries == [] then [] else RunsOf(tries[..|tries| - 1]) + tries[|tries| - 1].runs
  }

  /** What the attempts offered to the checkpoint: the body each ran last, whether it built, and whether it is sound. */
  function OffersOf(env: Env, tries: seq<Try>): seq<Offer> {
    if tries == [] || tries[|tries| - 1].runs == [] then []
    else
      var last := tries[|tries| - 1].runs[|tries[|tries| - 1].runs| - 1];
      OffersOf(env, tries[..|tries| - 1]) + [Offer(last.body, Compiled(last), !env.defective(last.body))]
  }

  /** An attempt leaves what it ran last, unless that did not build and an earlier attempt's can be restored. */
  predicate LeavesWhatBuilt(env: Env, before: seq<Try>, t: Try)
    requires t.runs != []
  {
    var last, target := t.runs[|t.runs| - 1], RestoreTarget(Replay(OffersOf(env, before)));
    t.left == if Compiled(last) || target.None? then last.body else target.value.source
  }

  /** The draft behind those attempts: the first is given; a further one is the fixer's reply to an attempt that settled
      nothing, or what that attempt left when the reply is blank. */
  predicate DraftedNext(env: Env, code0: string, before: seq<Try>, draft: string, requirePass: bool) {
    if before == [] then draft == code0
    else
      var n := |before| - 1;
      && before[n].runs != [] && WantsFix(VerdictBy(env, before[n]), requirePass) && env.fix(n).Some?
      && draft == env.postModel(if Blank(env.fix(n).value) && before[n].left != [] then before[n].left
                                else env.fix(n).value)
  }

  predicate WantsFix(v: Verdict, requirePass: bool) {
    (v.defective || !v.test.passed) && (requirePass || v.defective || !v.test.compiled)
  }

  /** The attempts follow one another as they should, from the first draft on. */
  predicate Story(env: Env, code0: string, tries: seq<Try>, requirePass: bool) {
    tries == [] ||
    (var n := |tries| - 1;
     && Story(env, code0, tries[..n], requirePass) && Tried(env, tries[n])
     && DraftedNext(env, code0, tries[..n], tries[n].draft, requirePass)
     && LeavesWhatBuilt(env, tries[..n], tries[n])
     && tries[n].repairs == RepairsOf(tries[..n]))
  }

  function RepairsOf(tries: seq<Try>): nat {
    if tries == [] || tries[|tries| - 1].runs == [] then 0
    else RepairsOf(tries[..|tries| - 1]) + Asked(tries[|tries| - 1].runs)
  }

  /** How the loop ends behind those attempts, given the runs behind theirs: a run that cannot be read ends it with the
      sandbox's own outcome, and otherwise the last verdict does, the number of attempts, or the fixer. */
  predicate StopsWith(env: Env, code0: string, tries: seq<Try>, attempts: int, requirePass: bool, o: Outcome,
                      more: seq<Run>) {
    if more != [] then
      && |more| == 1 && DraftedNext(env, code0, tries, more[0].body, requirePass) && !more[0].reply.Ran?
      && o == if more[0].reply.Unavailable? then SandboxUnavailable else RunError
    else if tries == [] || tries[|tries| - 1].runs == [] then o == Unknown
    else
      var v := VerdictBy(env, tries[|tries| - 1]);
      if v.test.passed && !v.defective then PassStands(env, o)
      else if v.test.compiled && !v.defective && !requirePass then o == CompiledOnly
      else if |tries| == attempts then
        o == if v.test.passed then VacuousPass
             else if !v.test.compiled then Exhausted
             else if v.defective then CompileOnlyDefective else RevertedExhausted
      else o == if env.fix(|tries| - 1).None? then FixFailed else Unknown
  }

  /** What the patched copy makes of a pass. */
  predicate PassStands(env: Env, o: Outcome) {
    var checked := env.fixSource == Patch && env.patchApplies && env.patchedRun.Ran? && env.patchedRun.test.compiled;
    && (o == PassedVerified <==> checked && !env.patchedRun.test.passed)
    && (o == UnverifiedPass <==> checked && env.patchedRun.test.passed)
    && (o == PassedUnchecked <==> !checked)
  }

  /** The whole of it: the attempts, their runs, why they ended, the verdict that counts, and how often the fixer was
      asked. */
  predicate TellsAll(env: Env, code0: string, tries: seq<Try>, attempts: int, requirePass: bool, o: Outcome, fixes: nat,
                     last: Option<Verdict>, runs: seq<Run>) {
    && Story(env, code0, tries, requirePass)
    && RunsOf(tries) <= runs
    && StopsWith(env, code0, tries, attempts, requirePass, o, runs[|RunsOf(tries)|..])
    && (forall k | 0 <= k < |tries| :: tries[k].runs != [])
    && last == (if tries == [] then None else Some(VerdictBy(env, tries[|tries| - 1])))
    && fixes == if o in {Unknown, SandboxUnavailable, RunError, FixFailed} then |tries| else |tries| - 1
  }

  /** Between two attempts the runs, the repairer's count and the checkpoint are those of the attempts so far. */
  predicate Held(env: Env, code0: string, tries: seq<Try>, requirePass: bool, runs: seq<Run>, repairs: nat, cp: State) {
    && Story(env, code0, tries, requirePass)
    && runs == RunsOf(tries) && repairs == RepairsOf(tries) && cp == Replay(OffersOf(env, tries))
    && |OffersOf(env, tries)| == |tries|
    && forall k | 0 <= k < |tries| :: tries[k].runs != []
  }

  lemma HeldRuns(env: Env, code0: string, tries: seq<Try>, requirePass: bool, runs: seq<Run>, repairs: nat, cp: State)
    requires Held(env, code0, tries, requirePass, runs, repairs, cp)
    ensures runs == RunsOf(tries)
  {
  }

  lemma NothingTried(env: Env, code0: string, attempts: int, requirePass: bool)
    ensures Held(env, code0, [], requirePass, [], 0, EMPTY) && DraftedNext(env, code0, [], code0, requirePass)
    ensures TellsAll(env, code0, [], attempts, requirePass, Unknown, 0, None, [])
  {
  }

  lemma StopsUnread(env: Env, code0: string, tries: seq<Try>, attempts: int, requirePass: bool, o: Outcome, fixes: nat,
                    last: Option<Verdict>, runs: seq<Run>, run: Run)
    requires TellsAll(env, code0, tries, attempts, requirePass, Unknown, fixes, last, runs) && runs == RunsOf(tries)
    requires DraftedNext(env, code0, tries, run.body, requirePass) && !run.reply.Ran?
    requires o == if run.reply.Unavailable? then SandboxUnavailable else RunError
    ensures TellsAll(env, code0, tries, attempts, requirePass, o, fixes, last, runs + [run])
  {
    hide DraftedNext, RunsOf, Story;
    assert (runs + [run])[|runs|..] == [run];
  }

  /** A judged attempt ends the loop, or goes on to the fixer, as the story has it. */
  lemma StopsJudged(env: Env, code0: string, tries: seq<Try>, attempts: int, requirePass: bool, v: Verdict,
                    runs: seq<Run>, repairs: nat, cp: State)
    requires tries != [] && tries[|tries| - 1].runs != [] && v == VerdictBy(env, tries[|tries| - 1])
    requires Held(env, code0, tries, requirePass, runs, repairs, cp)
    ensures var judged := JudgedAs(env, v, |tries| == attempts, requirePass);
      && (judged.Some? ==>
            TellsAll(env, code0, tries, attempts, requirePass, judged.value, |tries| - 1, Some(v), runs))
      && (judged.None? ==>
            && TellsAll(env, code0, tries, attempts, requirePass,
                        if env.fix(|tries| - 1).None? then FixFailed else Unknown, |tries|, Some(v), runs)
            && (env.fix(|tries| - 1).Some? ==>
                  var reply, left := env.fix(|tries| - 1).value, tries[|tries| - 1].left;
                  DraftedNext(env, code0, tries, env.postModel(if Blank(reply) && left != [] then left else reply),
                              requirePass)))
  {
    hide LastRead, Blank, RunsOf, RepairsOf, OffersOf, Replay, Story;
    assert runs[|runs|..] == [];
  }

  lemma TriedNext(env: Env, code0: string, tries: seq<Try>, requirePass: bool, t: Try, runs: seq<Run>, cp0: State,
                  repairs: nat, cp: State)
    requires Held(env, code0, tries, requirePass, runs, t.repairs, cp0)
    requires DraftedNext(env, code0, tries, t.draft, requirePass) && Tried(env, t)
    requires t.runs != [] && repairs == t.repairs + Asked(t.runs)
    requires var last := t.runs[|t.runs| - 1];
      && cp == RefreshSlots(cp0, last.body, |tries| + 1, Compiled(last), Compiled(last) && !env.defective(last.body))
      && t.left == if Compiled(last) || RestoreTarget(cp0).None? then last.body else RestoreTarget(cp0).value.source
    ensures Held(env, code0, tries + [t], requirePass, runs + t.runs, repairs, cp)
  {
    hide RefreshSlots, RestoreTarget, DraftedNext, RunsOn, RunsOut, Story, RunsOf, RepairsOf, OffersOf, Replay;
    OneTryMore(env, code0, tries, t, requirePass);
    OfferedNext(env, tries, t, cp0);
  }

  lemma OneTryMore(env: Env, code0: string, tries: seq<Try>, t: Try, requirePass: bool)
    requires Story(env, code0, tries, requirePass) && Tried(env, t) && t.repairs == RepairsOf(tries)
    requires DraftedNext(env, code0, tries, t.draft, requirePass) && LeavesWhatBuilt(env, tries, t)
    ensures Story(env, code0, tries + [t], requirePass)
    ensures RunsOf(tries + [t]) == RunsOf(tries) + t.runs
    ensures RepairsOf(tries + [t]) == t.repairs + Asked(t.runs)
  {
    assert (tries + [t])[..|tries|] == tries;
  }

  /** One more attempt moves the checkpoint on to what all of them offered. */
  lemma OfferedNext(env: Env, before: seq<Try>, t: Try, cp: State)
    requires t.runs != [] && cp == Replay(OffersOf(env, before)) && |OffersOf(env, before)| == |before|
    ensures var last := t.runs[|t.runs| - 1];
      Replay(OffersOf(env, before + [t]))
      == RefreshSlots(cp, last.body, |before| + 1, Compiled(last), Compiled(last) && !env.defective(last.body))
    ensures |OffersOf(env, before + [t])| == |before| + 1
  {
    hide RefreshSlots;
    assert (before + [t])[..|before|] == before;
    var offers := OffersOf(env, before + [t]);
    assert offers[..|before|] == OffersOf(env, before);
  }

  predicate AllSettled(runs: seq<Run>, settled: seq<Settled>) {
    forall k | 0 <= k < |settled| :: SettledOnCompiled(runs, settled[k])
  }

  /** One judged attempt keeps the checkpoint in step with the runs, and what it leaves on the active path
      has compiled if anything so far did. */
  lemma AttemptSettles(old_: seq<Run>, run: Run, runs: seq<Run>, cp: State, code: string, test: Test, attempt: nat,
                       compiledReal: bool, settled: seq<Settled>)
    requires Tracks(old_, cp) && AllSettled(old_, settled)
    requires old_ + [run] <= runs && runs[|runs| - 1].body == code
    requires test.compiled <==> Compiled(runs[|runs| - 1])
    requires AnyRunCompiled(runs) <==> AnyRunCompiled(old_ + [run]) || test.compiled
    requires forall b :: HasCompiled(old_ + [run], b) ==> HasCompiled(runs, b)
    requires Compiled(run) ==> test.compiled
    requires compiledReal ==> test.compiled
    ensures var cp' := RefreshSlots(cp, code, attempt, test.compiled, compiledReal);
      var left := if !test.compiled && RestoreTarget(cp).Some? then RestoreTarget(cp).value.source else code;
      Tracks(runs, cp') && AllSettled(runs, settled + [Settled(|runs|, left)])
  {
    AnyRunCompiledStep(old_, run);
    forall b | HasCompiled(old_, b) ensures HasCompiled(runs, b) {
      HasCompiledGrows(old_, run, b);
    }
    assert runs[..|runs|] == runs;
    if test.compiled {
      assert runs == runs[..|runs| - 1] + [runs[|runs| - 1]];
      LastRunCompiled(runs[..|runs| - 1], runs[|runs| - 1]);
    }
    forall k | 0 <= k < |settled| ensures SettledOnCompiled(runs, settled[k]) {
      assert SettledOnCompiled(old_, settled[k]);
      assert runs[..settled[k].runs] == old_[..settled[k].runs];
    }
  }

  lemma StillSettled(old_: seq<Run>, runs: seq<Run>, settled: seq<Settled>)
    requires AllSettled(old_, settled) && old_ <= runs
    ensures AllSettled(runs, settled)
  {
    forall k | 0 <= k < |settled| ensures SettledOnCompiled(runs, settled[k]) {
      assert SettledOnCompiled(old_, settled[k]);
      assert runs[..settled[k].runs] == old_[..settled[k].runs];
    }
  }

  lemma ScriptStep(env: Env, runs: seq<Run>, run: Run)
    requires Scripted(env, runs) && run.reply == env.sandbox(|runs|)
    ensures Scripted(env, runs + [run])
  {
  }

  lemma NoRefresh(cp: State, code: string, attempt: nat)
    ensures RefreshSlots(cp, code, attempt, false, false) == cp
  {
  }

  /** The verdict part of an attempt: a real pass is put to the falsification run, a real compile may be enough,
      and the last attempt must end somehow; otherwise the finding goes on. */
  method Judge(env: Env, v: Verdict, body: string, isLast: bool, requirePass: bool)
    returns (outcome: Option<Outcome>, patched: Option<Run>)
    ensures outcome == JudgedAs(env, v, isLast, requirePass)
    ensures outcome.None? <==> !v.RealPass() && !(v.CompiledReal() && !requirePass) && !isLast
    ensures outcome.Some? && v.RealPass() ==> outcome.value in {PassedVerified, UnverifiedPass, PassedUnchecked}
    ensures outcome == Some(PassedVerified) ==> v.RealPass() && patched == Some(Run(body, Ran(Test(false, true))))
    ensures v.RealPass() ==> (outcome == Some(UnverifiedPass)
      <==> env.fixSource == Patch && env.patchApplies && env.patchedRun == Ran(Test(true, true)))
    ensures !v.RealPass() && v.CompiledReal() && !requirePass ==> outcome == Some(CompiledOnly)
    ensures !v.RealPass() && !(v.CompiledReal() && !requirePass) && isLast ==>
      outcome == Some(ExhaustedOutcome(v.test, v.defective))
    ensures outcome.None? ==> patched.None?
  {
    patched := None;
    if v.RealPass() {
      var status;
      status, patched := MutationVerify(env, body);
      outcome := match status
        case Verified => Some(PassedVerified)
        case Survived => Some(UnverifiedPass)
        case Unchecked(_) => Some(PassedUnchecked);
      return;
    }
    if v.CompiledReal() && !requirePass {
      return Some(CompiledOnly), None;
    }
    if isLast {
      outcome := if v.test.passed then Some(VacuousPass)
                 else if v.test.compiled && !v.defective then Some(RevertedExhausted)
                 else if v.test.compiled then Some(CompileOnlyDefective)
                 else Some(Exhausted);
      return;
    }
    return None, None;
  }

  predicate AttemptKept(env: Env, runs: seq<Run>, cp: State, settled: seq<Settled>) {
    Scripted(env, runs) && Tracks(runs, cp) && AllSettled(runs, settled)
  }

  /** One attempt up to its verdict: write, run, repair in place, then refuse and restore, or refresh the slots. */
  method RunAttempt(env: Env, code0: string, runs0: seq<Run>, repairs0: nat, cp0: State, settled0: seq<Settled>,
                    attempt: nat)
    returns (stop: Option<Outcome>, code: string, v: Verdict, runs: seq<Run>, repairs: nat, cp: State,
             settled: seq<Settled>, log: seq<Event>, ghost own: seq<Run>)
    requires AttemptKept(env, runs0, cp0, settled0) && 1 <= attempt
    ensures runs0 < runs && |runs| <= |runs0| + 1 + DET_REPAIR_ROUNDS
    ensures AllSettled(runs, settled) && Scripted(env, runs)
    ensures match env.sandbox(|runs0|)
      case Unavailable => stop == Some(SandboxUnavailable)
      case Raised => stop == Some(RunError)
      case Ran(_) => stop.None? && AttemptKept(env, runs, cp, settled)
    ensures stop.None? ==>
      v.defective == env.defective(runs[|runs| - 1].body) && SomeReply(runs, v.test)
      && (v.test.compiled <==> Compiled(runs[|runs| - 1]))
    ensures stop.None? ==>
      code == if !v.test.compiled && RestoreTarget(cp).Some? then RestoreTarget(cp).value.source
              else runs[|runs| - 1].body
    ensures stop.Some? ==> code == code0
    ensures stop.None? ==>
      var t := Turn(code0, |runs0|, repairs0, attempt - 1, cp0);
      v == VerdictOf(env, t) && Turn(code, |runs|, repairs, attempt - 1, cp) == Kept(env, t)
    // Run by run: one that was not read, or one attempt's, judged by the last answer that was.
    ensures runs == runs0 + own && own != [] && own[0].body == code0
    ensures stop.Some? ==>
      && |own| == 1 && !own[0].reply.Ran?
      && stop.value == if own[0].reply.Unavailable? then SandboxUnavailable else RunError
    ensures stop.None? ==>
      && RunsOn(env, own, repairs0) && RunsOut(env, own, repairs0) && repairs == repairs0 + Asked(own)
      && v == Verdict(LastRead(own), env.defective(own[|own| - 1].body))
      && cp == RefreshSlots(cp0, own[|own| - 1].body, attempt, Compiled(own[|own| - 1]),
                            Compiled(own[|own| - 1]) && !env.defective(own[|own| - 1].body))
      && code == if Compiled(own[|own| - 1]) || RestoreTarget(cp0).None? then own[|own| - 1].body
                 else RestoreTarget(cp0).value.source
  {
    hide AllSettled, AnyRunCompiled, HasCompiled, Tracks, Scripted, SomeReply, Repaired, RunsOn, RunsOut, LastRead;
    code, runs, repairs, cp, settled := code0, runs0, repairs0, cp0, settled0;
    v := Verdict(Test(false, false), false);
    log := [Written(attempt)];
    var run := Run(code, env.sandbox(|runs|));
    ScriptStep(env, runs, run);
    runs, own := runs + [run], [run];
    StillSettled(runs0, runs, settled);
    if run.reply.Unavailable? {
      return Some(SandboxUnavailable), code, v, runs, repairs, cp, settled, log + [SandboxUnavailableNote], own;
    }
    if run.reply.Raised? {
      return Some(RunError), code, v, runs, repairs, cp, settled, log + [RunErrorNote], own;
    }
    var test, notes;
    code, test, runs, repairs, notes, own := DetRepair(env, code, run.reply.test, runs, repairs);
    v := Verdict(test, env.defective(code));
    log := log + notes + [Tested(attempt, test, v.RealPass(), v.CompiledReal())];
    AttemptSettles(runs0, run, runs, cp, code, test, attempt, v.CompiledReal(), settled);
    NoRefresh(cp, code, attempt);
    var target := RestoreTarget(cp);
    if ShouldEmitAdoptRefusal(true, test.compiled, target.Some?) {
      log := log + [AdoptRefused(attempt)];
      code := target.value.source;
    } else if test.compiled {
      cp := RefreshSlots(cp, code, attempt, true, v.CompiledReal());
    }
    settled := settled + [Settled(|runs|, code)];
    stop := None;
  }

  lemma NothingKept(env: Env)
    ensures AttemptKept(env, [], EMPTY, []) && Scripted(env, []) && AllSettled([], [])
  {
  }

  /** How the loop over the attempts ended. */
  datatype Ended = Ended(
    outcome: Outcome, wrote: bool, active: Option<string>, runs: seq<Run>, settled: seq<Settled>,
    last: Option<Verdict>, patched: Option<Run>, cp: State, fixes: nat, log: seq<Event>)
  {
    /** The loop was left on the last verdict: what that says of the files. */
    predicate Decided(env: Env) {
      && last.Some? && runs != [] && SomeReply(runs, last.value.test)
      && last.value.defective == env.defective(runs[|runs| - 1].body)
      && (last.value.test.compiled <==> Compiled(runs[|runs| - 1]))
      && active == Some(if !last.value.test.compiled && RestoreTarget(cp).Some? then RestoreTarget(cp).value.source
                        else runs[|runs| - 1].body)
      && (outcome == PassedVerified ==>
            patched.Some? && patched.value.reply == Ran(Test(false, true)) && active == Some(patched.value.body))
    }
  }

  /** How many attempts are left from `attempt` on; the agentic loop has one, whatever was asked for. */
  function AttemptsLeft(agentic: bool, attempts: int, attempt: int): nat {
    var effective := if agentic then 1 else attempts;
    if attempt <= effective then effective - attempt + 1 else 0
  }

  /** Asks the fixer; a reply without code keeps the draft there is. */
  method NextDraft(env: Env, code: string, fixes: nat) returns (next: Option<string>, log: seq<Event>)
    ensures next.Some? <==> env.fix(fixes).Some?
    ensures forall t: Turn | t.code == code && t.fixes == fixes && next.Some? ::
      Fixed(env, t) == t.(code := next.value, fixes := fixes + 1)
    ensures next.Some? ==>
      next.value == env.postModel(if Blank(env.fix(fixes).value) && code != [] then code else env.fix(fixes).value)
  {
    var reply := env.fix(fixes);
    log := [];
    if reply.None? {
      return None, [Note];
    }
    var draft := reply.value;
    if Blank(draft) {
      log := [Note];
      draft := if code != [] then code else draft;
    }
    next := Some(env.postModel(draft));
  }

  /** One round of the loop: write, run, repair in place, refuse or refresh, judge, and ask for a fix. There is a next
      draft unless the round ends the loop. */
  method Round(env: Env, code: string, e0: Ended, repairs0: nat, attempt: nat, attempts: int, requirePass: bool,
               ghost code0: string, ghost tries0: seq<Try>, ghost left: nat)
    returns (e: Ended, next: Option<string>, repairs: nat, ghost tries: seq<Try>)
    requires AttemptKept(env, e0.runs, e0.cp, e0.settled) && e0.outcome == Unknown
    requires 1 <= attempt && e0.fixes == |tries0| == attempt - 1 && 0 < left
    requires TellsAll(env, code0, tries0, attempts, requirePass, Unknown, e0.fixes, e0.last, e0.runs)
    requires Held(env, code0, tries0, requirePass, e0.runs, repairs0, e0.cp)
    requires DraftedNext(env, code0, tries0, code, requirePass)
    ensures e.wrote && e.active.Some? && e.runs != [] && |e.runs| <= |e0.runs| + 1 + DET_REPAIR_ROUNDS
    ensures Scripted(env, e.runs) && AllSettled(e.runs, e.settled)
    ensures TellsAll(env, code0, tries, attempts, requirePass, e.outcome, e.fixes, e.last, e.runs) && |tries| <= attempt
    ensures next.None? ==> e.outcome != Unknown
    ensures next.Some? ==>
      && e.outcome == Unknown && e.fixes == |tries| == attempt && AttemptKept(env, e.runs, e.cp, e.settled)
      && Held(env, code0, tries, requirePass, e.runs, repairs, e.cp)
      && DraftedNext(env, code0, tries, next.value, requirePass)
    ensures Closing(env, Turn(code, |e0.runs|, repairs0, e0.fixes, e0.cp), e0.last, left, attempts, requirePass)
         == if next.None? then Close(e.outcome, e.fixes, e.last)
            else Closing(env, Turn(next.value, |e.runs|, repairs, e.fixes, e.cp), e.last, left - 1, attempts,
                         requirePass)
    ensures e.outcome in {Unknown, SandboxUnavailable, RunError, FixFailed} || e.Decided(env)
    ensures e.outcome !in {Unknown, SandboxUnavailable, RunError, FixFailed} ==>
      tries != [] && e.active == Some(tries[|tries| - 1].left)
  {
    hide Tracks, AllSettled, HasCompiled, AnyRunCompiled, RestoreTarget, RefreshSlots, Scripted, Blank, SomeReply,
      Repaired, DraftOf, VerdictOf, Kept, Closing, JudgedAs, DraftedNext, RunsOn, RunsOut, LastRead, Held, TellsAll,
      Asked, Fixed;
    var stop, kept, v, runs, cp, settled, log;
    ghost var own, turn := [], Turn(code, |e0.runs|, repairs0, e0.fixes, e0.cp);
    ClosingStep(env, turn, e0.last, left, attempts, requirePass);
    stop, kept, v, runs, repairs, cp, settled, log, own :=
      RunAttempt(env, code, e0.runs, repairs0, e0.cp, e0.settled, attempt);
    log, tries, next := e0.log + log, tries0, None;
    if stop.Some? {
      HeldRuns(env, code0, tries0, requirePass, e0.runs, repairs0, e0.cp);
      StopsUnread(env, code0, tries0, attempts, requirePass, stop.value, e0.fixes, e0.last, e0.runs, own[0]);
      assert own == [own[0]];
      e := Ended(stop.value, true, Some(kept), runs, settled, e0.last, None, cp, e0.fixes, log);
      return;
    }
    ghost var try := Try(code, own, repairs0, kept);
    TriedNext(env, code0, tries0, requirePass, try, e0.runs, e0.cp, repairs, cp);
    tries := tries0 + [try];
    StopsJudged(env, code0, tries, attempts, requirePass, v, runs, repairs, cp);
    var judged, patched := Judge(env, v, kept, attempt == attempts, requirePass);
    if judged.Some? {
      e := Ended(judged.value, true, Some(kept), runs, settled, Some(v), patched, cp, e0.fixes, log);
      return;
    }
    var more;
    next, more := NextDraft(env, kept, e0.fixes);
    e := Ended(if next.None? then FixFailed else Unknown, true, Some(kept), runs, settled, Some(v), None, cp,
               e0.fixes + 1, log + more);
  }

  /** The loop over the attempts. */
  method Attempts(env: Env, code0: string, attempts: int, agentic: bool, requirePass: bool, before: Option<string>)
    returns (e: Ended, ghost tries: seq<Try>)
    // What was run, attempt by attempt, and why it ended.
    ensures TellsAll(env, code0, tries, attempts, requirePass, e.outcome, e.fixes, e.last, e.runs)
    ensures |tries| <= AttemptsLeft(agentic, attempts, 1)
    ensures e.outcome == Unknown ==> |tries| == AttemptsLeft(agentic, attempts, 1)
    ensures e.outcome !in {Unknown, SandboxUnavailable, RunError, FixFailed} ==>
      tries != [] && e.active == Some(tries[|tries| - 1].left)
    ensures e.wrote <==> 1 <= (if agentic then 1 else attempts)
    ensures e.wrote ==> e.runs != [] && e.active.Some?
    ensures !e.wrote ==> e.active == before && e.runs == [] && e.outcome == Unknown && e.last.None?
    ensures Scripted(env, e.runs) && AllSettled(e.runs, e.settled)
    ensures |e.runs| <= (if agentic then 1 else if attempts < 0 then 0 else attempts) * (1 + DET_REPAIR_ROUNDS)
    ensures Close(e.outcome, e.fixes, e.last)
         == Closing(env, Begin(code0), None, AttemptsLeft(agentic, attempts, 1), attempts, requirePass)
    ensures e.outcome in {Unknown, SandboxUnavailable, RunError, FixFailed} || e.Decided(env)
  {
    hide AllSettled, Scripted, AttemptKept, Closing, DraftedNext, Held, TellsAll;
    NothingKept(env);
    NothingTried(env, code0, attempts, requirePass);
    e := Ended(Unknown, false, before, [], [], None, None, EMPTY, 0, []);
    tries := [];
    var code, repairs, attempt := code0, 0, 1;
    var effective := if agentic then 1 else attempts;
    while attempt <= effective
      invariant 1 <= attempt && (attempt <= effective + 1 || attempt == 1)
      invariant e.outcome == Unknown && e.fixes == |tries| == attempt - 1
      invariant attempt == 1 ==>
        code == code0 && repairs == 0 && e == Ended(Unknown, false, before, [], [], None, None, EMPTY, 0, [])
      invariant attempt > 1 ==> e.wrote && e.runs != [] && e.active.Some?
      invariant TellsAll(env, code0, tries, attempts, requirePass, Unknown, e.fixes, e.last, e.runs)
      invariant Held(env, code0, tries, requirePass, e.runs, repairs, e.cp)
      invariant DraftedNext(env, code0, tries, code, requirePass)
      invariant Closing(env, Begin(code0), None, AttemptsLeft(agentic, attempts, 1), attempts, requirePass)
             == Closing(env, Turn(code, |e.runs|, repairs, e.fixes, e.cp), e.last,
                        AttemptsLeft(agentic, attempts, attempt), attempts, requirePass)
      invariant AttemptKept(env, e.runs, e.cp, e.settled) && Scripted(env, e.runs) && AllSettled(e.runs, e.settled)
      invariant |e.runs| <= (attempt - 1) * (1 + DET_REPAIR_ROUNDS)
      decreases effective - attempt
    {
      var next;
      e, next, repairs, tries := Round(env, code, e, repairs, attempt, attempts, requirePass, code0, tries,
                                       AttemptsLeft(agentic, attempts, attempt));
      if next.None? {
        return;
      }
      code := next.value;
      attempt := attempt + 1;
    }
    ClosingStep(env, Turn(code, |e.runs|, repairs, e.fixes, e.cp), e.last, 0, attempts, requirePass);
  }

  /** `_process_finding` from its first attempt to `task_done`: the attempts, the end-of-finding restore and the
      quarantine. `before` is what stood on the active path when the finding started. */
  method AttemptLoop(env: Env, code0: string, attempts: int, agentic: bool, requirePass: bool, before: Option<string>)
    returns (r: Finished, ghost tries: seq<Try>)
    // What was run, attempt by attempt, and why it ended.
    ensures TellsAll(env, code0, tries, attempts, requirePass, r.outcome, r.fixes, r.last, r.runs)
    ensures |tries| <= if agentic then 1 else if attempts < 0 then 0 else attempts
    ensures r.outcome == Unknown ==> |tries| == if agentic then 1 else if attempts < 0 then 0 else attempts
    ensures r.wrote && Keeps(r.outcome) ==> tries != [] && r.active == Some(tries[|tries| - 1].left)
    // Only a proven file stays: byte for byte what was last run, built, without structural defect.
    ensures r.wrote ==> r.runs != []
    ensures r.wrote && r.active.Some? ==> Keeps(r.outcome)
    // The one way around it, over the script: a clean exit that built no suite settles the finding.
    ensures r.wrote && r.active.Some? && !ActiveIsProven(env, r.runs, r.active)
      <==> SettlesUnbuilt(env, Begin(code0), AttemptsLeft(agentic, attempts, 1), requirePass)
    ensures BuildsWhatItPasses(env) && r.wrote && r.active.Some? ==> ActiveIsProven(env, r.runs, r.active)
    ensures r.wrote && !Keeps(r.outcome) ==> r.active.None? && r.quarantined.Some?
    ensures !r.wrote ==> r.active == before && r.quarantined.None? && r.runs == [] && r.outcome == Unknown
    ensures r.wrote <==> 1 <= (if agentic then 1 else attempts)
    // A verified pass is a pass that broke on the patched source, with the very file that stays.
    ensures r.outcome == PassedVerified ==>
      r.patched.Some? && r.patched.value.reply == Ran(Test(false, true)) && r.active == Some(r.patched.value.body)
    // After every attempt that was judged, the active file has compiled if any run so far did.
    ensures Scripted(env, r.runs) && AllSettled(r.runs, r.settled)
    // What the loop returns, and how much it may spend.
    ensures !agentic && 1 <= attempts ==> r.outcome != Unknown && r.fixes < attempts
    ensures VerdictSays(Close(r.outcome, r.fixes, r.last), attempts, requirePass)
    ensures |r.runs| <= (if agentic then 1 else if attempts < 0 then 0 else attempts) * (1 + DET_REPAIR_ROUNDS)
    // Outcome, fixes and last verdict are the script's.
    ensures Close(r.outcome, r.fixes, r.last)
         == Closing(env, Begin(code0), None, AttemptsLeft(agentic, attempts, 1), attempts, requirePass)
    // The judged draft of the agentic loop goes back to the model unless exactly one attempt was asked for.
    ensures agentic && r.last.Some? && !r.last.value.RealPass() && !(r.last.value.CompiledReal() && !requirePass)
      ==> (r.fixes == 0 <==> attempts == 1) && (attempts != 1 ==> r.outcome in {Unknown, FixFailed})
  {
    hide AllSettled, SettlesUnbuilt, Closing, VerdictOf, JudgedAs, TellsAll, Scripted, VerdictSays;
    ghost var left := AttemptsLeft(agentic, attempts, 1);
    if BuildsWhatItPasses(env) {
      BuiltPassesSettleBuilt(env, Begin(code0), left, requirePass);
    }
    ClosesUnbuiltIff(env, Begin(code0), None, left, attempts, requirePass);
    ClosingMeans(env, Begin(code0), None, left, attempts, requirePass);
    if !agentic && 1 <= attempts {
      ClosesInTime(env, Begin(code0), None, left, requirePass);
    }
    if agentic {
      AgenticClose(env, code0, attempts, requirePass);
    }
    if Keeps(Closing(env, Begin(code0), None, left, attempts, requirePass).outcome) {
      KeepingSays(Closing(env, Begin(code0), None, left, attempts, requirePass), attempts, requirePass);
    }
    var e;
    e, tries := Attempts(env, code0, attempts, agentic, requirePass, before);
    var active := e.active;
    if e.last.Some? && ShouldEndRestore(e.last.value.test.compiled, RestoreTarget(e.cp).Some?) && e.wrote {
      active := Some(RestoreTarget(e.cp).value.source);
    }
    var quarantined: Option<string>, log := None, e.log;
    if e.outcome !in {PassedVerified, PassedUnchecked, CompiledOnly} && e.wrote {
      quarantined, active := active, None;
      log := log + [Note];
    }
    r := Finished(e.outcome, e.wrote, active, quarantined, e.runs, e.settled, e.last, e.patched, e.fixes, log);
  }
}
