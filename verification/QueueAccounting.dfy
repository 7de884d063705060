/** Terminal-event accounting of a whole queue run (scripts/poc_queue_runner.py) and the offline classifier
    that reads it back (scripts/scaffold_taxonomy.py). */
module QueueAccounting {
  import opened Options
  import opened ScaffoldCauses
  import opened ProofLifecycle
  import Text

  datatype Level = SynthesisAttempt | FindingAttempt | OtherLevel
  datatype Mark = Plain | LegacyScaffold | Terminal(level: Level, cause: Cause)

  /** One line of the run log. An empty `runId` or `model` is an absent stamp. */
  datatype Entry = Entry(runId: string, model: string, findingId: string, mark: Mark)

  /** The causes of the terminal events of one level for one finding, in log order. */
  function TerminalsOf(log: seq<Entry>, level: Level, fid: string): seq<Cause> {
    if log == [] then []
    else
      var e := log[|log| - 1];
      TerminalsOf(log[..|log| - 1], level, fid)
      + (if e.findingId == fid && e.mark.Terminal? && e.mark.level == level then [e.mark.cause] else [])
  }

  lemma {:induction false} TerminalsAppend(a: seq<Entry>, b: seq<Entry>, level: Level, fid: string)
    ensures TerminalsOf(a + b, level, fid) == TerminalsOf(a, level, fid) + TerminalsOf(b, level, fid)
  {
    if b == [] {
      assert a + b == a;
    } else {
      assert (a + b)[..|a + b| - 1] == a + b[..|b| - 1];
      TerminalsAppend(a, b[..|b| - 1], level, fid);
    }
  }

  predicate AllOf(log: seq<Entry>, runId: string, model: string, fid: string) {
    forall e | e in log :: e.runId == runId && e.model == model && e.findingId == fid
  }

  lemma {:induction false} NoTerminalsElsewhere(log: seq<Entry>, runId: string, model: string, fid: string,
                                              level: Level, other: string)
    requires AllOf(log, runId, model, fid) && other != fid
    ensures TerminalsOf(log, level, other) == []
  {
    if log != [] {
      NoTerminalsElsewhere(log[..|log| - 1], runId, model, fid, level, other);
    }
  }

  lemma AllOfAppend(a: seq<Entry>, b: seq<Entry>, runId: string, model: string, fid: string)
    requires AllOf(a, runId, model, fid) && AllOf(b, runId, model, fid)
    ensures AllOf(a + b, runId, model, fid)
  {
  }

  /** The causes of one level that a mark adds for its own finding. */
  function Adds(mark: Mark, level: Level): seq<Cause> {
    if mark.Terminal? && mark.level == level then [mark.cause] else []
  }

  /** The log of one finding, one line longer. */
  function Put(log: seq<Entry>, runId: string, model: string, fid: string, mark: Mark): (r: seq<Entry>)
    requires AllOf(log, runId, model, fid)
    ensures AllOf(r, runId, model, fid)
    ensures TerminalsOf(r, SynthesisAttempt, fid)
         == TerminalsOf(log, SynthesisAttempt, fid) + Adds(mark, SynthesisAttempt)
    ensures TerminalsOf(r, FindingAttempt, fid) == TerminalsOf(log, FindingAttempt, fid) + Adds(mark, FindingAttempt)
    ensures mark.Terminal? && mark.level == FindingAttempt ==>
      TerminalsOf(r, SynthesisAttempt, fid) == TerminalsOf(log, SynthesisAttempt, fid)
  {
    var e := Entry(runId, model, fid, mark);
    assert (log + [e])[..|log|] == log;
    log + [e]
  }

  lemma NothingLogged(runId: string, model: string, fid: string)
    ensures AllOf([], runId, model, fid) && forall level :: TerminalsOf([], level, fid) == []
  {
  }

  // ---- scaffold synthesis ------------------------------------------------

  datatype SynthReply = TransportFailure | NotSolidity | Base
  datatype BuildFailure = FailPath | FailToolchain | FailCode

  function BuildCause(f: BuildFailure): Cause {
    match f case FailPath => NoBuildPath case FailToolchain => NoBuildToolchain case FailCode => NoBuildCode
  }

  /** One deterministic repair round over a failed build: did any fixer apply, and was an error matched that
      none of them applied to. */
  datatype RepairRound = RepairRound(applied: bool, matchedUnapplied: bool)

  datatype SynthEnv = SynthEnv(
    reusable: bool, reply: SynthReply, build: nat -> Reply, failure: nat -> BuildFailure, repair: nat -> RepairRound)

  const SYNTH_REPAIR_ROUNDS: nat := 3

  /** Build `j` was read, failed, and a fixer applied: the loop goes on behind it. */
  predicate RepairedAt(env: SynthEnv, j: nat) {
    env.build(j).Ran? && !env.build(j).test.compiled && env.repair(j).applied
  }

  /** Build `k` is among the three there are at most, and the first that is not merely repaired. */
  predicate LastBuild(env: SynthEnv, k: nat) {
    k < 3 && forall j | 0 <= j < k :: RepairedAt(env, j)
  }

  /** Does the replies' script end in a base that may be drafted on: one still good from before, or one that built? */
  predicate YieldsBase(env: SynthEnv) {
    env.reusable
    || (env.reply.Base?
        && exists k | 0 <= k < 3 :: LastBuild(env, k) && env.build(k).Ran? && env.build(k).test.compiled)
  }

  /** What the last build, the `k`-th, closes a synthesis with: an unread build is the harness's, a failed one is told
      by its failure, except that Solidity errors no fixer applied to are told by whether one matched. */
  predicate BuildCloses(env: SynthEnv, k: nat, c: Cause) {
    && LastBuild(env, k)
    && (!env.build(k).Ran? ==> c == NoBuildInfra)
    && (env.build(k).Ran? && env.build(k).test.compiled ==> c == Synthesized)
    && (env.build(k).Ran? && !env.build(k).test.compiled ==>
          && (k == 2 || !env.repair(k).applied)
          && (env.failure(k) == FailPath ==> c == NoBuildPath)
          && (env.failure(k) == FailToolchain ==> c == NoBuildToolchain)
          && (env.failure(k) == FailCode && env.repair(k).applied ==> c == NoBuildCode)
          && (env.failure(k) == FailCode && !env.repair(k).applied ==>
                c == if env.repair(k).matchedUnapplied then RepairExhaustedResolvable else RepairExhaustedUnresolvable))
  }

  /** The cause a synthesis that is not a reuse closes with. */
  predicate SynthesisCloses(env: SynthEnv, c: Cause) {
    && (env.reply.TransportFailure? ==> c == NoOutputCrash)
    && (env.reply.NotSolidity? ==> c == NoOutputModel)
    && (env.reply.Base? ==> exists k | 0 <= k < 3 :: BuildCloses(env, k, c))
  }

  lemma OneLastBuild(env: SynthEnv, builds: nat, c: Cause)
    requires env.reply.Base? && !env.reusable && 1 <= builds && BuildCloses(env, builds - 1, c)
    ensures YieldsBase(env) <==> c == Synthesized
    ensures SynthesisCloses(env, c)
  {
    if k :| 0 <= k < 3 && LastBuild(env, k) && env.build(k).Ran? && env.build(k).test.compiled {
      assert k < builds - 1 ==> RepairedAt(env, k);
      assert builds - 1 < k ==> RepairedAt(env, builds - 1);
    }
  }

  /** `synthesize_scaffold`, its terminal events only: reuse, one model call, then the bounded
      compile-and-repair loop over the candidate base. */
  method SynthesizeScaffold(env: SynthEnv, runId: string, model: string, fid: string)
    returns (accepted: bool, log: seq<Entry>, builds: nat)
    ensures AllOf(log, runId, model, fid) && TerminalsOf(log, FindingAttempt, fid) == []
    ensures env.reusable <==> TerminalsOf(log, SynthesisAttempt, fid) == []
    ensures !env.reusable ==>
      && |TerminalsOf(log, SynthesisAttempt, fid)| == 1
      && TerminalsOf(log, SynthesisAttempt, fid)[0] in SYNTHESIS_CAUSES
      && (accepted <==> TerminalsOf(log, SynthesisAttempt, fid)[0] == Synthesized)
    ensures env.reusable ==> accepted && builds == 0
    // A base is accepted exactly when the script yields one, and the one cause says why not.
    ensures accepted <==> YieldsBase(env)
    ensures !env.reusable ==> SynthesisCloses(env, TerminalsOf(log, SynthesisAttempt, fid)[0])
    ensures builds <= SYNTH_REPAIR_ROUNDS
    ensures accepted && !env.reusable ==>
      1 <= builds && env.build(builds - 1).Ran? && env.build(builds - 1).test.compiled
    ensures forall k | 0 <= k < builds - 1 :: env.build(k).Ran? && !env.build(k).test.compiled && env.repair(k).applied
  {
    hide TerminalsOf, AllOf, Put;
    NothingLogged(runId, model, fid);
    builds := 0;
    if env.reusable {
      log := Put([], runId, model, fid, Plain);
      return true, log, builds;
    }
    if env.reply.TransportFailure? {
      log := Put([], runId, model, fid, Terminal(SynthesisAttempt, NoOutputCrash));
      return false, log, builds;
    }
    if env.reply.NotSolidity? {
      log := Put([], runId, model, fid, Terminal(SynthesisAttempt, NoOutputModel));
      return false, log, builds;
    }
    log := [];
    var exhausted: Option<Cause> := None;
    while builds < SYNTH_REPAIR_ROUNDS
      invariant 0 <= builds <= SYNTH_REPAIR_ROUNDS && exhausted.None?
      invariant AllOf(log, runId, model, fid)
      invariant TerminalsOf(log, FindingAttempt, fid) == [] && TerminalsOf(log, SynthesisAttempt, fid) == []
      invariant forall k | 0 <= k < builds :: env.build(k).Ran? && !env.build(k).test.compiled && env.repair(k).applied
    {
      var reply, failure, round := env.build(builds), env.failure(builds), env.repair(builds);
      builds := builds + 1;
      if !reply.Ran? {
        OneLastBuild(env, builds, NoBuildInfra);
        log := Put(log, runId, model, fid, Terminal(SynthesisAttempt, NoBuildInfra));
        return false, log, builds;
      }
      if reply.test.compiled {
        OneLastBuild(env, builds, Synthesized);
        log := Put(log, runId, model, fid, Terminal(SynthesisAttempt, Synthesized));
        return true, log, builds;
      }
      log := Put(log, runId, model, fid, LegacyScaffold);
      if !round.applied {
        if failure == FailCode {
          exhausted := Some(if round.matchedUnapplied then RepairExhaustedResolvable else RepairExhaustedUnresolvable);
        }
        break;
      }
    }
    var cause := if exhausted.Some? then exhausted.value else BuildCause(env.failure(builds - 1));
    OneLastBuild(env, builds, cause);
    log := Put(log, runId, model, fid, Terminal(SynthesisAttempt, cause));
    return false, log, builds;
  }

  // ---- one finding -------------------------------------------------------

  datatype DraftReply = DraftError | DraftCode(code: string)
  datatype LoopReply = LoopModelError | LoopUnavailable | LoopSandboxError | LoopCode(code: string)

  datatype Settings = Settings(
    noScaffold: bool, noSynthesis: bool, hasIndex: bool, lookupBudget: int, agentic: bool, attempts: int,
    requirePass: bool)

  /** Everything outside the harness that one finding meets. `before` stands on its active path at the start,
      `afterLoop` when the agentic loop hands over or fails. */
  datatype FindingEnv = FindingEnv(
    scaffoldResolved: bool, missingTypes: bool, synth: SynthEnv, draft: DraftReply, loop: LoopReply, body: Env,
    before: Option<string>, afterLoop: Option<string>)

  /** The body the attempts of a finding start from: the agentic loop's, or the draft. */
  function DraftedBody(env: FindingEnv, s: Settings): string {
    env.body.postModel(if s.agentic then (if env.loop.LoopCode? then env.loop.code else [])
                       else if env.draft.DraftCode? then env.draft.code else [])
  }

  /** The replies settle the finding on a clean exit that built no suite. */
  predicate FindingSettlesUnbuilt(env: FindingEnv, s: Settings) {
    SettlesUnbuilt(env.body, Begin(DraftedBody(env, s)), AttemptsLeft(s.agentic, s.attempts, 1), s.requirePass)
  }

  /** How one finding ended: its outcome, its attempts if they were reached, what stands on its active path, and the
      causes its synthesis closed with. */
  datatype End = End(outcome: Outcome, finished: Option<Finished>, active: Option<string>, synthesis: seq<Cause>)

  /** There is a deploy base, or none is wanted. */
  predicate Grounded(env: FindingEnv, s: Settings) {
    s.noScaffold || env.scaffoldResolved
  }

  /** The base declares every type the finding needs, or one that does is synthesized. */
  predicate Equipped(env: FindingEnv, s: Settings) {
    env.missingTypes ==> !s.noSynthesis && YieldsBase(env.synth)
  }

  /** There is code to judge: the agentic loop's, or the draft. */
  predicate HasCode(env: FindingEnv, s: Settings) {
    if s.agentic then env.loop.LoopCode? && !Text.Blank(env.loop.code)
    else env.draft.DraftCode? && !Text.Blank(env.draft.code)
  }

  /** Does the finding get to its attempts? */
  predicate ReachesAttempts(env: FindingEnv, s: Settings) {
    Grounded(env, s) && Equipped(env, s) && HasCode(env, s)
  }

  /** The outcome of each exit before the attempts. */
  predicate ExitsWith(env: FindingEnv, s: Settings, o: Outcome) {
    if !Grounded(env, s) then o == BaseInsufficient
    else if !Equipped(env, s) then o == if s.hasIndex && s.lookupBudget > 0 then LookupFailed else BaseInsufficient
    else if s.agentic && env.loop.LoopUnavailable? then o == SandboxUnavailable
    else if s.agentic && env.loop.LoopSandboxError? then o == RunError
    else o == DraftFailed
  }

  /** A synthesis that is not a reuse logs one cause, its own; nothing else logs any. */
  predicate SynthesisLogged(env: FindingEnv, s: Settings, causes: seq<Cause>) {
    if Grounded(env, s) && env.missingTypes && !s.noSynthesis && !env.synth.reusable
    then |causes| == 1 && SynthesisCloses(env.synth, causes[0])
    else causes == []
  }

  /** The attempts are told, run by run, from their first draft on. */
  ghost predicate ToldFrom(env: Env, code0: string, s: Settings, f: Finished) {
    exists tries :: TellsAll(env, code0, tries, s.attempts, s.requirePass, f.outcome, f.fixes, f.last, f.runs)
  }

  /** A finding gets to its attempts exactly when it is grounded, equipped and has code, and otherwise ends with the
      outcome of the exit it took. Attempts that were reached ended as the script closes them. A file they wrote stays
      without being proven exactly when the replies settle the finding unbuilt; where nothing was written the file is
      what it was, or what the agentic loop left. */
  ghost predicate EndsAsScripted(env: FindingEnv, s: Settings, e: End) {
    && (e.finished.Some? <==> ReachesAttempts(env, s))
    && SynthesisLogged(env, s, e.synthesis)
    && (e.finished.Some? ==>
          var f := e.finished.value;
          && e.outcome == f.outcome && e.active == f.active
          && ToldFrom(env.body, env.body.postModel(if s.agentic then env.loop.code else env.draft.code), s, f)
          && Close(f.outcome, f.fixes, f.last)
             == Closing(env.body, Begin(DraftedBody(env, s)), None, AttemptsLeft(s.agentic, s.attempts, 1), s.attempts,
                        s.requirePass)
          && (f.wrote && e.active.Some? && !ActiveIsProven(env.body, f.runs, e.active)
              <==> FindingSettlesUnbuilt(env, s))
          && (!f.wrote ==> e.active == if s.agentic then env.afterLoop else env.before))
    && (e.finished.None? ==>
          && ExitsWith(env, s, e.outcome)
          && e.active == if Grounded(env, s) && Equipped(env, s) && s.agentic then env.afterLoop else env.before)
  }

  lemma ClosesEarly(env: FindingEnv, s: Settings, o: Outcome, active: Option<string>, synthesis: seq<Cause>)
    requires !ReachesAttempts(env, s) && ExitsWith(env, s, o) && SynthesisLogged(env, s, synthesis)
    requires active == if Grounded(env, s) && Equipped(env, s) && s.agentic then env.afterLoop else env.before
    ensures EndsAsScripted(env, s, End(o, None, active, synthesis))
  {
    hide ExitsWith, ReachesAttempts, SynthesisLogged, Closing, FindingSettlesUnbuilt;
  }

  lemma CodeHandedOver(env: FindingEnv, s: Settings)
    requires ReachesAttempts(env, s)
    ensures if s.agentic then env.loop.LoopCode? && DraftedBody(env, s) == env.body.postModel(env.loop.code)
            else env.draft.DraftCode? && DraftedBody(env, s) == env.body.postModel(env.draft.code)
  {
  }

  /** The attempts of a finding, from its drafted body on. */
  method JudgeDraft(env: FindingEnv, s: Settings, ghost synthesis: seq<Cause>) returns (r: Finished)
    requires ReachesAttempts(env, s) && SynthesisLogged(env, s, synthesis)
    ensures EndsAsScripted(env, s, End(r.outcome, Some(r), r.active, synthesis))
    ensures BuildsWhatItPasses(env.body) && !s.agentic && 1 <= s.attempts && r.active.Some? ==>
      ActiveIsProven(env.body, r.runs, r.active)
  {
    hide SettlesUnbuilt, Closing, ActiveIsProven, AllSettled, Scripted, BuildsWhatItPasses, ExhaustedOutcome, Begin,
      ReachesAttempts, SynthesisLogged, TellsAll;
    CodeHandedOver(env, s);
    ghost var tries;
    r, tries := AttemptLoop(env.body, DraftedBody(env, s), s.attempts, s.agentic, s.requirePass,
                            if s.agentic then env.afterLoop else env.before);
    assert ToldFrom(env.body, DraftedBody(env, s), s, r);
  }

  function LadderOutcome(s: Settings): Outcome {
    if !s.hasIndex || s.lookupBudget <= 0 then BaseInsufficient else LookupFailed
  }

  predicate SynthesisFailed(log: seq<Entry>, fid: string) {
    exists c | c in TerminalsOf(log, SynthesisAttempt, fid) :: !IsOk(c)
  }

  /** `_process_finding`: grounding gates, draft (or the agentic loop), then the attempts. */
  method ProcessFinding(env: FindingEnv, s: Settings, runId: string, model: string, fid: string)
    returns (outcome: Outcome, log: seq<Entry>, finished: Option<Finished>, active: Option<string>)
    ensures AllOf(log, runId, model, fid)
    ensures TerminalsOf(log, FindingAttempt, fid) == [FindingCause(outcome)]
    ensures |TerminalsOf(log, SynthesisAttempt, fid)| <= 1
    ensures forall c | c in TerminalsOf(log, SynthesisAttempt, fid) :: c in SYNTHESIS_CAUSES
    // A finding whose base was not synthesized is never drafted.
    ensures SynthesisFailed(log, fid) ==> outcome in {BaseInsufficient, LookupFailed} && finished.None?
    // A finding that is judged ends as its attempts ended, files included.
    ensures EndsAsScripted(env, s, End(outcome, finished, active, TerminalsOf(log, SynthesisAttempt, fid)))
    ensures !s.agentic && finished.Some? && BuildsWhatItPasses(env.body) && 1 <= s.attempts && active.Some? ==>
      ActiveIsProven(env.body, finished.value.runs, active)
  {
    hide TerminalsOf, AllOf, Put, ActiveIsProven, FindingCause, BuildsWhatItPasses, YieldsBase, SynthesisCloses,
      EndsAsScripted, Text.Blank;
    NothingLogged(runId, model, fid);
    log := Put([], runId, model, fid, Plain);
    active, finished := env.before, None;
    if !s.noScaffold && !env.scaffoldResolved {
      outcome := BaseInsufficient;
      ClosesEarly(env, s, outcome, active, TerminalsOf(log, SynthesisAttempt, fid));
      log := Put(log, runId, model, fid, Terminal(FindingAttempt, FindingCause(outcome)));
      return;
    }
    if env.missingTypes {
      log := Put(log, runId, model, fid, LegacyScaffold);
      var accepted := false;
      if !s.noSynthesis {
        var synthLog, builds;
        accepted, synthLog, builds := SynthesizeScaffold(env.synth, runId, model, fid);
        TerminalsAppend(log, synthLog, SynthesisAttempt, fid);
        TerminalsAppend(log, synthLog, FindingAttempt, fid);
        AllOfAppend(log, synthLog, runId, model, fid);
        log := log + synthLog;
      }
      if !accepted {
        outcome := LadderOutcome(s);
        ClosesEarly(env, s, outcome, active, TerminalsOf(log, SynthesisAttempt, fid));
        log := Put(log, runId, model, fid, Terminal(FindingAttempt, FindingCause(outcome)));
        return;
      }
    }
    if s.agentic {
      active := env.afterLoop;
      match env.loop {
        case LoopModelError => outcome := DraftFailed;
        case LoopUnavailable => outcome := SandboxUnavailable;
        case LoopSandboxError => outcome := RunError;
        case LoopCode(_) => outcome := if Text.Blank(env.loop.code) then DraftFailed else Unknown;
      }
    } else {
      outcome := if env.draft.DraftError? || Text.Blank(env.draft.code) then DraftFailed else Unknown;
    }
    if outcome != Unknown {
      ClosesEarly(env, s, outcome, active, TerminalsOf(log, SynthesisAttempt, fid));
      log := Put(log, runId, model, fid, Terminal(FindingAttempt, FindingCause(outcome)));
      return;
    }
    var r := JudgeDraft(env, s, TerminalsOf(log, SynthesisAttempt, fid));
    outcome, finished, active := r.outcome, Some(r), r.active;
    log := Put(log, runId, model, fid, Terminal(FindingAttempt, FindingCause(outcome)));
  }

  // ---- the whole queue ---------------------------------------------------

  /** `causes[k]` is the one cause finding `k` was closed with; `started` findings were processed. */
  predicate Accounted(log: seq<Entry>, runId: string, model: string, todo: seq<string>,
                      causes: seq<Cause>, started: nat) {
    && |causes| <= |todo| && started <= |causes|
    && (forall e | e in log :: e.mark.Terminal? ==>
          e.runId == runId && e.model == model && e.findingId in todo[..|causes|])
    && (forall k | 0 <= k < |causes| :: TerminalsOf(log, FindingAttempt, todo[k]) == [causes[k]])
    && (forall k | 0 <= k < |causes| :: |TerminalsOf(log, SynthesisAttempt, todo[k])| <= 1)
    && (forall k | 0 <= k < |causes| :: causes[k] in FINDING_CAUSES && (InDenominator(causes[k]) <==> k < started))
  }

  predicate Distinct(ids: seq<string>) {
    forall i, j | 0 <= i < j < |ids| :: ids[i] != ids[j]
  }

  lemma {:induction false} NoTerminalsYet(log: seq<Entry>, ids: seq<string>, level: Level, fid: string)
    requires forall e | e in log :: e.mark.Terminal? ==> e.findingId in ids
    requires fid !in ids
    ensures TerminalsOf(log, level, fid) == []
  {
    if log != [] {
      NoTerminalsYet(log[..|log| - 1], ids, level, fid);
    }
  }

  /** Closing one more finding leaves every earlier account as it was. */
  lemma AccountOneMore(log: seq<Entry>, more: seq<Entry>, runId: string, model: string, todo: seq<string>,
                       causes: seq<Cause>, started: nat, c: Cause)
    requires Accounted(log, runId, model, todo, causes, started) && Distinct(todo) && |causes| < |todo|
    requires AllOf(more, runId, model, todo[|causes|])
    requires TerminalsOf(more, FindingAttempt, todo[|causes|]) == [c]
    requires |TerminalsOf(more, SynthesisAttempt, todo[|causes|])| <= 1
    requires c in FINDING_CAUSES && (InDenominator(c) ==> started == |causes|)
    ensures Accounted(log + more, runId, model, todo, causes + [c], if InDenominator(c) then started + 1 else started)
    ensures forall k | 0 <= k < |causes| ::
        TerminalsOf(log + more, SynthesisAttempt, todo[k]) == TerminalsOf(log, SynthesisAttempt, todo[k])
    ensures TerminalsOf(log + more, SynthesisAttempt, todo[|causes|])
         == TerminalsOf(more, SynthesisAttempt, todo[|causes|])
  {
    hide TerminalsOf;
    TerminalsKept(log, more, runId, model, todo, causes, started);
    hide AllOf;
    var n := |causes|;
    assert todo[..n + 1] == todo[..n] + [todo[n]];
  }

  /** The terminals of one more finding's log are its own, and the earlier findings' stay. */
  lemma TerminalsKept(log: seq<Entry>, more: seq<Entry>, runId: string, model: string, todo: seq<string>,
                      causes: seq<Cause>, started: nat)
    requires Accounted(log, runId, model, todo, causes, started) && Distinct(todo) && |causes| < |todo|
    requires AllOf(more, runId, model, todo[|causes|])
    ensures forall k, level | 0 <= k <= |causes| ::
      TerminalsOf(log + more, level, todo[k])
      == if k < |causes| then TerminalsOf(log, level, todo[k]) else TerminalsOf(more, level, todo[k])
  {
    hide TerminalsOf;
    var n := |causes|;
    forall k, level | 0 <= k <= n
      ensures TerminalsOf(log + more, level, todo[k])
           == if k < n then TerminalsOf(log, level, todo[k]) else TerminalsOf(more, level, todo[k])
    {
      TerminalsAppend(log, more, level, todo[k]);
      if k < n {
        NoTerminalsElsewhere(more, runId, model, todo[n], level, todo[k]);
      } else {
        NoTerminalsYet(log, todo[..n], level, todo[n]);
      }
    }
  }

  lemma TerminalOfOne(e: Entry, level: Level, fid: string)
    ensures TerminalsOf([e], level, fid)
         == if e.findingId == fid && e.mark.Terminal? && e.mark.level == level then [e.mark.cause] else []
  {
    assert [e][..0] == [];
    assert TerminalsOf([], level, fid) == [];
  }

  lemma SkipIsOne(skip: Entry, runId: string, model: string, fid: string)
    requires skip == Entry(runId, model, fid, Terminal(FindingAttempt, NotAttemptedBudget))
    ensures AllOf([skip], runId, model, fid)
    ensures TerminalsOf([skip], FindingAttempt, fid) == [NotAttemptedBudget]
    ensures TerminalsOf([skip], SynthesisAttempt, fid) == []
  {
    TerminalOfOne(skip, FindingAttempt, fid);
    TerminalOfOne(skip, SynthesisAttempt, fid);
  }

  lemma NothingAccounted(runId: string, model: string, todo: seq<string>)
    ensures Accounted([Entry(runId, model, "", Plain)], runId, model, todo, [], 0)
  {
  }

  /** The queue loop of `main` and `_emit_budget_skips`: `overBudget(k)` is the clock check before finding `k`. */
  method RunQueue(runId: string, model: string, todo: seq<string>, s: Settings, envs: nat -> FindingEnv,
                  overBudget: nat -> bool)
    returns (log: seq<Entry>, causes: seq<Cause>, started: nat, ghost ends: seq<End>)
    requires Distinct(todo)
    ensures |causes| == |todo| && Accounted(log, runId, model, todo, causes, started)
    ensures started <= |todo| && (forall k | 0 <= k < started :: !overBudget(k))
    ensures started < |todo| ==> overBudget(started)
    // Every finding that was started is closed with the cause of its own end, and ends as its replies say.
    ensures |ends| == started
    ensures forall k | 0 <= k < started ::
      && causes[k] == FindingCause(ends[k].outcome) && EndsAsScripted(envs(k), s, ends[k])
      && TerminalsOf(log, SynthesisAttempt, todo[k]) == ends[k].synthesis
  {
    hide Accounted, TerminalsOf, AllOf, FindingCause, EndsAsScripted;
    log, causes, started, ends := [Entry(runId, model, "", Plain)], [], 0, [];
    NothingAccounted(runId, model, todo);
    var i := 0;
    while i < |todo|
      invariant 0 <= i <= |todo| && started == i == |causes|
      invariant Accounted(log, runId, model, todo, causes, started)
      invariant forall k | 0 <= k < i :: !overBudget(k)
      invariant |ends| == i
      invariant forall k | 0 <= k < i ::
          causes[k] == FindingCause(ends[k].outcome) && EndsAsScripted(envs(k), s, ends[k])
      invariant forall k | 0 <= k < i :: TerminalsOf(log, SynthesisAttempt, todo[k]) == ends[k].synthesis
    {
      if overBudget(i) {
        StillAccounted(log, Entry(runId, model, "", Plain), runId, model, todo, causes, started);
        log := log + [Entry(runId, model, "", Plain)];
        var j := i;
        while j < |todo|
          invariant i <= j <= |todo| && |causes| == j && started == i
          invariant Accounted(log, runId, model, todo, causes, started)
          invariant forall k | 0 <= k < i :: causes[k] == FindingCause(ends[k].outcome)
          invariant forall k | 0 <= k < i :: TerminalsOf(log, SynthesisAttempt, todo[k]) == ends[k].synthesis
        {
          var skip := Entry(runId, model, todo[j], Terminal(FindingAttempt, NotAttemptedBudget));
          SkipIsOne(skip, runId, model, todo[j]);
          AccountOneMore(log, [skip], runId, model, todo, causes, started, NotAttemptedBudget);
          log, causes, j := log + [skip], causes + [NotAttemptedBudget], j + 1;
        }
        return;
      }
      var outcome, one, finished, active := ProcessFinding(envs(i), s, runId, model, todo[i]);
      FindingCauseClosed(outcome);
      AccountOneMore(log, one, runId, model, todo, causes, started, FindingCause(outcome));
      log, causes, started, i := log + one, causes + [FindingCause(outcome)], started + 1, i + 1;
      ends := ends + [End(outcome, finished, active, TerminalsOf(one, SynthesisAttempt, todo[|ends|]))];
    }
    StillAccounted(log, Entry(runId, model, "", Plain), runId, model, todo, causes, started);
    log := log + [Entry(runId, model, "", Plain)];
  }

  lemma StillAccounted(log: seq<Entry>, e: Entry, runId: string, model: string, todo: seq<string>, causes: seq<Cause>,
                       started: nat)
    requires Accounted(log, runId, model, todo, causes, started) && !e.mark.Terminal?
    ensures Accounted(log + [e], runId, model, todo, causes, started)
    ensures forall fid :: TerminalsOf(log + [e], SynthesisAttempt, fid) == TerminalsOf(log, SynthesisAttempt, fid)
  {
    assert (log + [e])[..|log|] == log;
  }
}
