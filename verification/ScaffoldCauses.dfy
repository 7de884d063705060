/** The closed cause sets and their natures (audit_agent/proof/scaffold_causes.py), and the map from a
    runner outcome to its finding-level cause (scripts/poc_queue_runner.py). */
module ScaffoldCauses {

  import opened Options

  datatype Cause =
    | Synthesized | NoOutputModel | NoOutputCrash
    | NoBuildPath | NoBuildToolchain | NoBuildCode | NoBuildInfra
    | RepairExhaustedResolvable | RepairExhaustedUnresolvable
    | Proved | BaseInsufficientCause | LookupFailedCause | ModelCause
    | NotTriggered | NotAttemptedBudget | Unclassified

  datatype Nature = HarnessInfra | SynthModel | ModelNature

  datatype Outcome =
    | Unknown | PassedVerified | UnverifiedPass | PassedUnchecked | CompiledOnly
    | VacuousPass | RevertedExhausted | CompileOnlyDefective | Exhausted
    | DraftFailed | FixFailed | BaseInsufficient | LookupFailed | SandboxUnavailable | RunError

  const SYNTHESIS_CAUSES: set<Cause> :=
    {Synthesized, NoOutputModel, NoOutputCrash, NoBuildPath, NoBuildToolchain, NoBuildCode, NoBuildInfra,
     RepairExhaustedResolvable, RepairExhaustedUnresolvable}

  const FINDING_CAUSES: set<Cause> :=
    {Proved, BaseInsufficientCause, LookupFailedCause, ModelCause, NotTriggered, NotAttemptedBudget, Unclassified}

  function CauseNature(c: Cause): Option<Nature> {
    match c
    case NoOutputCrash => Some(HarnessInfra)
    case NoBuildPath => Some(HarnessInfra)
    case NoBuildToolchain => Some(HarnessInfra)
    case NoBuildInfra => Some(HarnessInfra)
    case RepairExhaustedResolvable => Some(HarnessInfra)
    case NoOutputModel => Some(SynthModel)
    case NoBuildCode => Some(SynthModel)
    case RepairExhaustedUnresolvable => Some(SynthModel)
    case BaseInsufficientCause => Some(HarnessInfra)
    case LookupFailedCause => Some(ModelNature)
    case ModelCause => Some(ModelNature)
    case _ => None
  }

  predicate IsOk(c: Cause) {
    c in {Synthesized, Proved}
  }

  predicate InDenominator(c: Cause) {
    c != NotAttemptedBudget
  }

  function FindingCause(o: Outcome): Cause {
    match o
    case PassedVerified => Proved
    case CompiledOnly => NotTriggered
    case UnverifiedPass => NotTriggered
    case PassedUnchecked => NotTriggered
    case RevertedExhausted => NotTriggered
    case VacuousPass => ModelCause
    case CompileOnlyDefective => ModelCause
    case Exhausted => ModelCause
    case DraftFailed => ModelCause
    case FixFailed => ModelCause
    case BaseInsufficient => BaseInsufficientCause
    case LookupFailed => LookupFailedCause
    case SandboxUnavailable => Unclassified
    case RunError => Unclassified
    case Unknown => Unclassified
  }

  /** Every outcome lands in the closed finding set, inside the denominator; only a verified pass counts as proved. */
  lemma FindingCauseClosed(o: Outcome)
    ensures FindingCause(o) in FINDING_CAUSES && InDenominator(FindingCause(o))
    ensures IsOk(FindingCause(o)) <==> o == PassedVerified
  {
  }

  /** Which causes each nature answers for. */
  lemma NatureTable(c: Cause)
    ensures CauseNature(c) == Some(HarnessInfra)
      <==> c in {NoOutputCrash, NoBuildPath, NoBuildToolchain, NoBuildInfra, RepairExhaustedResolvable,
                 BaseInsufficientCause}
    ensures CauseNature(c) == Some(SynthModel) <==> c in {NoOutputModel, NoBuildCode, RepairExhaustedUnresolvable}
    ensures CauseNature(c) == Some(ModelNature) <==> c in {LookupFailedCause, ModelCause}
  {
  }

  /** Which outcomes close a finding with each cause. */
  lemma CauseTable(o: Outcome)
    ensures FindingCause(o) == Proved <==> o == PassedVerified
    ensures FindingCause(o) == NotTriggered
      <==> o in {CompiledOnly, UnverifiedPass, PassedUnchecked, RevertedExhausted}
    ensures FindingCause(o) == ModelCause
      <==> o in {VacuousPass, CompileOnlyDefective, Exhausted, DraftFailed, FixFailed}
    ensures FindingCause(o) == BaseInsufficientCause <==> o == BaseInsufficient
    ensures FindingCause(o) == LookupFailedCause <==> o == LookupFailed
    ensures FindingCause(o) == Unclassified <==> o in {SandboxUnavailable, RunError, Unknown}
  {
  }
}
