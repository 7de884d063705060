# A verified model of the audit agent's control plane

The audit agent finds and proves vulnerabilities in smart contracts. Around its language model, its Docker sandbox and
its `forge` test runner sits a deterministic control plane: it turns an illustrative diff into a patch that applies, it
runs a proof through attempts, repairs, refusals and restores, it accounts for every finding of a queue, it screens
models against a battery and publishes a Pareto front, it bounds an exploit loop, it walks call and inheritance graphs,
and it folds an audit log into a roadmap. This project models that control plane and proves what it is for.

Everything outside it is arbitrary here: a model reply, a sandbox run, a clock check or an attempt is a function value or
a script of answers that the theorems quantify over. Loops and mutated objects stay loops and objects; each such method
is proved against a function or a property of its inputs, and the lemmas are about those.

Check it with `dafny verify dfyconfig.toml`.

## What is proved, part by part

**Patch reconstruction** (`PatchReconstruct`, `PatchApply`, `PatchText`). A strict applier of numbered hunks is defined
independently (`Apply`, on a file's real lines and whether the last one ends in a newline), and so is what an edit
should leave of each source line (`Line`, `Edited`). The law the module is for, that an accepted patch applies, is false
of the code; `AppliedPatchIsTheEdit` gives the exact condition, for every accepted file: in the source no hunk, trailing
context included, reaches the next hunk's anchor or the last piece between newlines, and each hunk changes something.
Then the result is the edit, byte for byte; `HunkLines` says of every emitted hunk which lines it holds, trailing
context included. A strict reader (`ReadPatch`) reads the emitted text back to the same sections, and for every block
the whole text applies exactly when each section in turn fits what its file holds by then
(`EmittedTextAppliesAsTheBlockSays`). Reconstruction of its own output is the identity; a block is accepted exactly when
it parses, every file exists and every hunk has one place.

Where the condition fails, the patch is accepted and does not apply, and each way has its whole family and an input:

- Overlap (`OverlapIsRefused`). The comment at `audit_agent/proof/patch_reconstruct.py:134-141` guards against trailing
  context that swallows the next hunk's anchor, but only for bodies that end in context. Two insertions less than four
  lines apart always collide (`CloseInsertionsCollide`, `TrailingContextSwallowsTheNextAnchor`).
- The end of the file (`EndOfFileIsRefused`). Line 144 keeps trailing context off the empty piece behind a final newline,
  the body walk does not: a blank line in the block is context and matches it (`BlankContextReachesPastTheEnd`). And a
  hunk that covers a last line without a newline needs a marker the emitted text never has
  (`UnterminatedLastLineIsNotMatched`).
- A hunk of context alone (`IdleHunkIsRefused`, `MarkerAloneChangesNothing`).
- A file named twice: both sections are made from the same source, so the second fits what the first leaves exactly when
  it still meets all it covers at its place (`AppliesWhereItsLinesStay`, `FileNamedTwiceIsNumberedTwice`, and on a block
  text `BlockNamingAFileTwice`).

A removal whose text starts with `-- `, or an addition whose text starts with `++ `, is read as a file header and lost
(`DashedLinesAreLost`); `BodyLineReadBackIff` says these are the only ones.

**Proof lifecycle** (`ProofLifecycle`, `Checkpoint`, `QueueAccounting`, `ScaffoldCauses`, `ScaffoldTaxonomy`). For any
model and sandbox, a file that stays after a finding is byte for byte what was last run, built, and without structural
defect, with one exception. `real_pass` (`scripts/poc_queue_runner.py:2948`) asks that the run exited cleanly and not
that it built a suite, and these are separate bits. `AttemptLoop` gives the exact condition on the inputs: a file is
kept that is not so if and only if, in the script of replies, the one that settles an attempt, the first or a later one,
before or after an in-place repair, is such an exit, on a body without defect, and the falsification run does not
survive (`SettlesUnbuilt`). Then the file that stays can be an earlier attempt's (`SecondAttemptUnbuilt`), a rewritten
one (`RepairedAttemptUnbuilt`), or one no run answered for (`UnreadRepairUnbuilt`). A verified pass is a pass that
broke, built, on the patched copy, with the very file that stays. On the agentic path the code compares `attempt ==
args.attempts` (`scripts/poc_queue_runner.py:3033`) where the comment at lines 2887-2889 speaks of `effective_attempts`;
the model follows the code, and `AgenticDraftGoesBackIff` says what that means: a failed agentic draft goes back to the
model unless exactly one attempt was asked for, and then closes without an outcome (`AgenticDraftGoesBack` is an input).
The outcome, the number of fixes and the last verdict of every finding are a function of the script (`Closing`), and
told a second way, attempt by attempt and run by run (`TellsAll`). A finding gets to its attempts exactly when it is
grounded, equipped and drafted (`ReachesAttempts`), a missing base having been synthesized within its bound
(`YieldsBase`). Over a whole queue every finding is closed exactly once, with the cause of its own end, its kept file as
its script says, and the offline classifier reading that log reports the same counts. Whom it charges is said of the log
alone (`NatureOnTheLog`): a failed synthesis outranks the finding's own end.

**Capability screen** (`Cascade`, `Quantile`, `ParetoFront`, `CapabilityMap`). For any attempt function: classes are
taken by name, screening precedes Bayes per class, and within each phase candidates are called cheap first
(`CheapFirst`); a candidate is called untriggered only after every case was screened in vain, a survivor is tried N
times at every case (`RunCascade`, `UntriggeredWasScreened`), non-survivors cost no Bayes call, survivors between cases
x N and four times that, and every ledger field is the sum over exactly the calls it should count. The bisection
quantile stops after exactly 40 halvings, is monotone in its level by a lock-step argument for any distribution
function, and its intervals nest; more successes never lower an interval. The published front is exactly the cells no
cell beats, and every omitted cell is beaten by a published one, from the first smoke call to the front
(`ScreenAndMap`).

**Exploit loop and detectors** (`ExploitLoop`, `RepeatDetector`). Against any model the loop ends within its three
budgets, re-rolls are never charged, re-drafts start from the most recent draft that compiled, and the loop goes on
behind a draft exactly when no stop applies. The detector's counters are properties of whole histories.

**Graphs** (`Reachability`, `InterferenceGraph`, `SymbolIndex`, `CodeGraph`). State propagated in place over a cyclic
call graph equals the union over everything reachable, in any order; subtype queries are reachability; the breadth-first
path is a shortest chain.

**Methodology** (`BenchMatch`, `Roadmap`, `Cursor`, `Stage3`, `Extractor`). Greedy matching is a maximum matching,
partitions both sides, and credits the least ids with the truths listed first; a transition's projection equals a later
replay of its own commit; `is_grounded` agrees with the projected flag exactly when same-id findings name one file (the
docstring of `SnapshotRejected` also speaks of mixed sessions; the code, and so the model, rejects only a future
watermark); the cursor visits every path once; synthesis is idempotent and never chains a finding alone; extraction from
a model reply is a contiguous run of lines that ends where braces and comments say (`SourceEndsWithItsPieces`,
`OpenUnitGoesOn`), and idempotent.

`Text`, `Options` and `Sorting` hold the Python string, absence and sorting operations that the other modules share.

## Model

| member | source | states |
|---|---|---|
| PatchReconstruct.ParseIllustrative | audit_agent/proof/patch_reconstruct.py:54-86 | The line loop that grows files and hunks refines the line-by-line parse; a marker before any file, or no hunk at all, is malformed. |
| PatchReconstruct.LocateExactlyOne | audit_agent/proof/patch_reconstruct.py:94-105 | An anchor is located if and only if exactly one stripped source line equals it; none and several are refused with different reasons. |
| PatchReconstruct.WalkBody | audit_agent/proof/patch_reconstruct.py:117-132 | The cursor walk succeeds if and only if every context and removal line equals the source line at its cursor; then both running counts are the true lengths of the two sides. |
| PatchReconstruct.AppendTrailing | audit_agent/proof/patch_reconstruct.py:134-149 | Behind a body that ends in a change, up to three source lines follow, never the empty piece behind a final newline, and both counts grow by as many. |
| PatchReconstruct.ReconstructHunk | audit_agent/proof/patch_reconstruct.py:110-152 | A hunk is refused for its anchor or its context, or else rendered with its true start, its counts and the net line change it passes on. |
| PatchReconstruct.EmittedSides | audit_agent/proof/patch_reconstruct.py:110-152 | The old side of an emitted hunk is the source stretch its header names, verbatim; the new side is the anchor, the body's new lines and the trailing context; both counts are the lengths of those sides. |
| PatchReconstruct.ReconstructFile | audit_agent/proof/patch_reconstruct.py:172-180 | With the running delta, hunk k is numbered by the net change of the hunks before it; the first hunk without a place refuses the file. |
| PatchReconstruct.Reconstruct | audit_agent/proof/patch_reconstruct.py:155-181 | A block that already holds a numbered hunk passes through; otherwise all sections are rendered or the first failing file or hunk refuses the whole patch. |
| PatchReconstruct.FirstRefusalIs | audit_agent/proof/patch_reconstruct.py:176-180 | The refusal reported for a file is that of its first hunk without a place, and there is none when every hunk has one. |
| PatchApply.TextOfFile | audit_agent/proof/patch_reconstruct.py:173 | Reading any text as lines and whether the last one ends in a newline loses nothing: written out, it is the text. |
| PatchApply.AppliedPatchIsTheEdit | audit_agent/proof/patch_reconstruct.py:110-181 | On any text and any accepted hunks: a strict applier on the file's real lines takes the numbered hunks if and only if, in the source, no hunk with its trailing context reaches the next anchor or the last piece and each changes something; then the text is the source with each hunk's removals deleted and additions inserted below their lines, its ending as it was. |
| PatchApply.AppliesWhereItsLinesStay | audit_agent/proof/patch_reconstruct.py:155-181 | The same on a file that has changed since: hunks numbered in one text apply to another if and only if they are disjoint in the first, each changes something, and each still meets all it covers at its place above the last piece; then the later text is edited there. |
| PatchApply.AscendingIsDisjoint | audit_agent/proof/patch_reconstruct.py:134-149 | The numbered hunks ascend if and only if, in the source, no hunk with its trailing context reaches the next hunk's anchor. |
| PatchApply.NumberFacts | audit_agent/proof/patch_reconstruct.py:150-180 | Every header names the true start and length of both sides: old start at the anchor, new start shifted by the net change of earlier hunks. |
| PatchApply.HunkLines | audit_agent/proof/patch_reconstruct.py:110-152 | Every line of an emitted hunk and its old count: the anchor, the body, and, exactly when the body ends in a removal or an addition, as many source lines behind it as there are, at most three, never the empty piece behind a final newline. |
| PatchApply.OneEdit | audit_agent/proof/patch_reconstruct.py:117-132 | Below its anchor line, an edit leaves exactly the new side of its body. |
| PatchApply.PeelFirst | audit_agent/proof/patch_reconstruct.py:110-152 | The topmost edit splits the result into untouched lines, its anchor with its new side and trailing lines, and the later edits' result. |
| PatchApply.TrailingContextSwallowsTheNextAnchor | audit_agent/proof/patch_reconstruct.py:134-149 | A concrete file and two accepted insertions in source order whose patch no strict applier takes. |
| PatchApply.OverlapIsRefused | audit_agent/proof/patch_reconstruct.py:134-149 | In any accepted file, whenever some hunk is anchored inside what the hunk before it covers, no strict applier takes the patch. |
| PatchApply.EndOfFileIsRefused | audit_agent/proof/patch_reconstruct.py:117-144 | In any accepted file, whenever some hunk covers the last piece, the empty one behind a final newline or an unterminated last line, no strict applier takes the patch. |
| PatchApply.IdleHunkIsRefused | audit_agent/proof/patch_reconstruct.py:110-152 | In any accepted file, whenever some hunk holds context alone, no strict applier takes the patch. |
| PatchApply.CloseInsertionsCollide | audit_agent/proof/patch_reconstruct.py:134-149 | Two insertions located less than four lines apart are always accepted and never applicable. |
| PatchApply.BlankContextReachesPastTheEnd | audit_agent/proof/patch_reconstruct.py:82-132 | A concrete file of one line and an accepted hunk with a blank context line whose header names two lines of it. |
| PatchApply.UnterminatedLastLineIsNotMatched | audit_agent/proof/patch_reconstruct.py:110-152 | A concrete file without a final newline and an accepted insertion whose patch no strict applier takes. |
| PatchApply.MarkerAloneChangesNothing | audit_agent/proof/patch_reconstruct.py:72-152 | A concrete file and a marker with nothing below it: accepted, and not applicable. |
| PatchApply.PlaceIffLands | audit_agent/proof/patch_reconstruct.py:94-132 | A hunk has a place if and only if its anchor names one stripped source line and its context and removals match verbatim below it. |
| PatchApply.SectionIffAcceptable | audit_agent/proof/patch_reconstruct.py:168-180 | A file section is emitted if and only if the file exists and every hunk lands. |
| PatchApply.SectionsIffAllAcceptable | audit_agent/proof/patch_reconstruct.py:167-180 | All or nothing: one unacceptable file yields no section at all. |
| PatchApply.AcceptedIffCertain | audit_agent/proof/patch_reconstruct.py:155-181 | An illustrative block is accepted if and only if it parses and every file and every hunk of it is acceptable. |
| PatchText.HeaderReadsBack | audit_agent/proof/patch_reconstruct.py:150-152 | An emitted hunk header reads back to its four numbers. |
| PatchText.BodyReadsBack | audit_agent/proof/patch_reconstruct.py:114-149 | Emitted body lines read back by their marks, consuming exactly the two counts, whatever follows. |
| PatchText.SectionsReadBack | audit_agent/proof/patch_reconstruct.py:165-181 | Rendered sections read back to the same sections. |
| PatchText.SectionsReadBackIff | audit_agent/proof/patch_reconstruct.py:150-181 | Emitted sections read back to themselves when no new start is negative, and not at all otherwise. |
| PatchText.NoHunksLeaveTheText | audit_agent/proof/patch_reconstruct.py:168-181 | A section without hunks, applied to any text, leaves that text. |
| PatchText.SectionAppliesIff | audit_agent/proof/patch_reconstruct.py:155-181 | One emitted section, applied to its file's text, succeeds if and only if it is applicable, and leaves that file's edit. |
| PatchText.SectionsApplyIff | audit_agent/proof/patch_reconstruct.py:165-181 | For sections of different files, applying all in order succeeds if and only if each is applicable, and edits exactly the named files. |
| PatchText.SectionsApplyInTurn | audit_agent/proof/patch_reconstruct.py:165-181 | For any sections, the same file named again included, applying all in order succeeds if and only if each in turn fits what its file holds by then. |
| PatchText.EmittedTextAppliesAsTheBlockSays | audit_agent/proof/patch_reconstruct.py:155-181 | End to end on text, for any accepted block: the emitted patch reads and applies if and only if each section in turn fits what its file holds by then, and each named file ends edited; when each file is named once, if and only if every section is applicable to its source, and then every named file holds its edit and every other file what it held. |
| PatchText.FileNamedTwiceIsNumberedTwice | audit_agent/proof/patch_reconstruct.py:167-180 | Of two parsed sections for one file, an insertion each below the same line, both are emitted and applicable to the source, and the second does not fit what the first leaves. |
| PatchText.BlockNamingAFileTwice | audit_agent/proof/patch_reconstruct.py:155-181 | A block text that names a file twice, for any two one-line insertions: reconstruction accepts it, each section is applicable to the file, and no strict reader and applier takes the emitted text. |
| PatchText.ReconstructIsIdempotent | audit_agent/proof/patch_reconstruct.py:155-160 | Reconstructing an emitted patch, against any files, returns it unchanged. |
| PatchText.BodyLineReadBackIff | audit_agent/proof/patch_reconstruct.py:54-86 | A body line written into a block is parsed back as itself if and only if its text does not turn the written line into a file header. |
| PatchText.DashedLinesAreLost | audit_agent/proof/patch_reconstruct.py:54-86 | In any open hunk, the removal of `-- x` is dropped and the addition of `++ x` opens a file named `x`. |
| PatchText.ParseOfIllustration | audit_agent/proof/patch_reconstruct.py:54-86 | Parsing inverts writing: plain files written as an illustrative block parse back to the same files, hunks and body lines. |
| PatchText.MarkerReads | audit_agent/proof/patch_reconstruct.py:29-75 | A marker names its anchor with or without a closing `@@`, and with or without a space behind the opening one. |
| PatchText.HeaderNames | audit_agent/proof/patch_reconstruct.py:66-91 | A file header names its path with or without the `a/` or `b/` before it. |
| PatchText.OtherLines | audit_agent/proof/patch_reconstruct.py:61-83 | An unmarked line inside a hunk is context with all its text; before the first hunk of a file it is skipped, and a line that starts with `--- ` is skipped everywhere. |
| PatchText.MalformedWithoutHunks | audit_agent/proof/patch_reconstruct.py:84-86 | A block whose lines parse is malformed if and only if no file of it has a hunk. |
| PatchText.GenuineIff | audit_agent/proof/patch_reconstruct.py:30-160 | A block passes for a genuine patch if and only if some line of it starts with a numbered hunk header, its counts given or left out. |
| Checkpoint.RestorableIffCompiled | audit_agent/proof/compiled_checkpoint.py:32-70 | After any run of attempts a restore target exists if and only if some attempt compiled. |
| Checkpoint.RestoresLatestReal | audit_agent/proof/compiled_checkpoint.py:32-70 | If some attempt compiled without defects, the restore target is the latest such body and attempt. |
| Checkpoint.RestoresLatestCompiled | audit_agent/proof/compiled_checkpoint.py:32-70 | If attempts compiled but none without defects, the restore target is the latest that compiled. |
| ScaffoldCauses.FindingCauseClosed | scripts/poc_queue_runner.py:160-203 | Every outcome maps into the closed finding causes and the denominator, and only a verified pass counts as ok. |
| ScaffoldCauses.CauseTable | scripts/poc_queue_runner.py:160-182 | Which outcomes each finding cause stands for, in both directions. |
| ScaffoldCauses.NatureTable | audit_agent/proof/scaffold_causes.py:44-62 | Which causes are the harness's, the synthesis model's and the model's, in both directions. |
| ProofLifecycle.MutationVerify | scripts/poc_queue_runner.py:2024-2090 | A pass is verified only when the same test, on the patched copy, built and failed; it survives when that test built and passed; each of the five reasons it could not be checked has its own condition, and nothing else is run. |
| ProofLifecycle.DetRepair | scripts/poc_queue_runner.py:2926-2944 | In-place repair, run by run: each further run is of the repairer's rewriting after a run that was read and did not build; it ends at a build, an unread run, a repairer with nothing to rewrite, or the third run, keeps the file on disk equal to the body last run, and is judged by the last answer read. |
| ProofLifecycle.RunAttempt | scripts/poc_queue_runner.py:2891-3010 | One attempt ends with its own run, or the restored checkpoint when it did not compile and something had; a failing sandbox ends the loop with its own outcome and leaves the drafted code. |
| ProofLifecycle.AttemptSettles | scripts/poc_queue_runner.py:2945-3010 | One judged attempt keeps the checkpoint in step with all runs so far, and what it leaves on the active path has compiled if any run so far did. |
| ProofLifecycle.Judge | scripts/poc_queue_runner.py:3011-3075 | How a verdict becomes an outcome or another round, the mutation check included. |
| ProofLifecycle.Round | scripts/poc_queue_runner.py:2891-3110 | One round: an attempt, its verdict, and the next draft, which is the fixer's reply, or the kept code where that is blank; there is none exactly when the round ends the loop. |
| ProofLifecycle.Attempts | scripts/poc_queue_runner.py:2885-3110 | The attempt loop, run by run and as a function of the script: its outcome, its fixes and its last verdict, its bounds, and what stands on disk when the last verdict decided. |
| ProofLifecycle.AttemptLoop | scripts/poc_queue_runner.py:2885-3178 | Attempt by attempt and run by run: the drafts, their runs, what each attempt leaves (its own body, or else the latest earlier one that built, a sound one first), and why the loop stops. A kept file is the body last run, built and without defect, except if and only if, in the script of replies, a clean exit that built no suite settles some attempt and the falsification run does not survive; every other written file is quarantined; a verified pass built and failed on the patched copy with the very file that stays. |
| ProofLifecycle.ClosesUnbuiltIff | scripts/poc_queue_runner.py:2945-3050 | A script settles a finding on an unbuilt pass if and only if it closes it as a pass that stays, on a verdict that built nothing. |
| ProofLifecycle.ClosesInTime | scripts/poc_queue_runner.py:2889-3110 | With all its attempts to go, a finding closes with an outcome and with fewer fixes than attempts. |
| ProofLifecycle.ClosingMeans | scripts/poc_queue_runner.py:3011-3110 | What the last verdict and the attempts used up say for each outcome a script closes with, vacuous, reverted, defective and exhausted included. |
| ProofLifecycle.AgenticDraftGoesBackIff | scripts/poc_queue_runner.py:2887-3110 | A judged agentic draft that settles nothing goes back to the fixer, its new code never run and the outcome unknown or fix_failed, unless exactly one attempt was asked for, when it closes as exhausted. |
| ProofLifecycle.AgenticDraftGoesBack | scripts/poc_queue_runner.py:2887-3110 | A concrete agentic script: with two attempts asked for, one fix and no outcome; with one, no fix and a reverted draft. |
| ProofLifecycle.BuiltPassesSettleBuilt | scripts/poc_queue_runner.py:2945-2948 | When every clean exit built a suite, no script settles a finding on an unbuilt pass, through any repairs and attempts. |
| ProofLifecycle.SecondAttemptUnbuilt | scripts/poc_queue_runner.py:2945-3050 | A concrete script whose second attempt passes without building: the finding is settled on it with the first attempt's body in place. |
| ProofLifecycle.RepairedAttemptUnbuilt | scripts/poc_queue_runner.py:2926-2948 | A concrete script in which the rewritten body passes without building and is kept. |
| ProofLifecycle.UnreadRepairUnbuilt | scripts/poc_queue_runner.py:2926-2948 | A concrete script in which the run of the rewritten body raises, and the answer for the body before it settles the finding on the rewritten one. |
| QueueAccounting.SynthesizeScaffold | scripts/poc_queue_runner.py:1043-1240 | Reuse logs no synthesis event; otherwise exactly one synthesis terminal is logged. A base is accepted if and only if the replies yield one: reusable, or compiled within the bound after only repaired failures. The one cause is told by the reply, or by the last build and why it failed. |
| QueueAccounting.ProcessFinding | scripts/poc_queue_runner.py:2707-3179 | Every path through a finding logs exactly one finding terminal with its outcome's cause. The attempts are reached if and only if the scaffold is resolved or waived, no type is missing or synthesis is on and yields a base, and the draft, or the agentic loop, handed over code; every other exit has its outcome and leaves the file as it was or as the loop left it. A judged finding is told run by run from the code handed over and ends as the script closes it, its file unproven if and only if the script settles it on an unbuilt pass. |
| QueueAccounting.AccountOneMore | scripts/poc_queue_runner.py:3458-3475 | Closing one more finding leaves every earlier account as it was. |
| QueueAccounting.RunQueue | scripts/poc_queue_runner.py:3458-3475 | Over a whole run with distinct ids, each finding is closed once, at most one synthesis terminal each; the first over-budget check stops the run and exactly the rest are skipped; every started finding is closed with the cause of its own end, reaches its attempts if and only if its replies allow it, takes the outcome of its exit otherwise, and ends as its script says, files and synthesis cause included. |
| ScaffoldTaxonomy.ReadEvents | scripts/scaffold_taxonomy.py:55-88 | The event pass keeps the last finding terminal and the list of synthesis causes per attributed finding, and counts the rest as unattributed. |
| ScaffoldTaxonomy.CountNatures | scripts/scaffold_taxonomy.py:89-108 | In any dictionary order, the counters are the sizes of the attempted set and of each nature's set. |
| ScaffoldTaxonomy.Classify | scripts/scaffold_taxonomy.py:55-127 | The published report: queued, attempted, truncated if and only if fewer were attempted than queued, shares withheld exactly on a truncated log without leave. |
| ScaffoldTaxonomy.NatureOnTheLog | scripts/scaffold_taxonomy.py:39-52 | Said of the log alone: a finding whose last terminal is a pass or a skip has no nature; otherwise its nature is that of its last failed synthesis terminal, and of that last terminal itself if and only if no synthesis of it failed. |
| ScaffoldTaxonomy.UntoldHasNoNature | scripts/scaffold_taxonomy.py:39-88 | A finding the log never closes is counted under no nature. |
| ScaffoldTaxonomy.UnbuiltBaseIsCharged | scripts/scaffold_taxonomy.py:39-108 | In the log of a queue run, a started finding whose missing types could not be synthesized is charged to the nature of its synthesis cause, whatever its ladder outcome, and never to the model. |
| ScaffoldTaxonomy.NaturesAreDisjoint | scripts/scaffold_taxonomy.py:39-53 | No finding is counted under two natures, so the three counts sum to at most the attempted. |
| ScaffoldTaxonomy.SharesAreShares | scripts/scaffold_taxonomy.py:108-127 | On any log the published shares are non-negative and sum to at most 1. |
| ScaffoldTaxonomy.ShareIsThePart | scripts/scaffold_taxonomy.py:108-127 | A published share times the number of attempted findings is the number of those that carry its nature; with none attempted it is zero. |
| ScaffoldTaxonomy.TableIsLastTerminal | scripts/scaffold_taxonomy.py:62-88 | On a fully attributed log of one run the classifier's table holds a finding if and only if the log closes it, with the last cause logged, and its synthesis list is the logged one. |
| ScaffoldTaxonomy.ClassifierAgreesWithTheQueue | scripts/scaffold_taxonomy.py:55-127 | On the log of a queue run the classifier reports the queue's own numbers: all findings, those started, and truncated if and only if the budget cut the run. |
| Quantile.BetaPpf | scripts/proof_bench.py:283-294 | Whatever the distribution function, the bisection stops after exactly 40 halvings, well below its cap. |
| Quantile.LockStep | scripts/proof_bench.py:283-294 | Bisections for two levels stay in lock step until they part, the lower level's bracket then lying left. |
| Quantile.QuantileMonotone | scripts/proof_bench.py:283-294 | The quantile is monotone in its level for any distribution function, monotone or not. |
| Quantile.QuantileOfTheHigher | scripts/proof_bench.py:283-294 | Of two distribution functions the one that lies nowhere lower has the lower quantile, at every level. |
| Quantile.QuantileIsTheCrossing | scripts/proof_bench.py:283-294 | For a monotone distribution function the quantile is within the last bracket's width of where the level is crossed. |
| Quantile.IntervalOrdered | scripts/proof_bench.py:297-311 | At any non-negative mass the interval's ends are in order and inside the unit interval. |
| Quantile.NegativeMassTurnsAround | scripts/proof_bench.py:297-311 | Below zero there is a distribution function that turns the interval around, so non-negative masses are exactly the good ones. |
| Quantile.IntervalsNest | scripts/proof_bench.py:297-311 | For the same counts the interval of a larger mass contains that of a smaller one. |
| Quantile.MoreSuccessesNeverLower | scripts/proof_bench.py:297-311 | For a posterior that falls in its first and rises in its second parameter, more successes of as many trials never lower either end of the interval. |
| Quantile.IntervalLeavesOutHalfOnEachSide | scripts/proof_bench.py:297-311 | The ends are, within half the bisection's tolerance, the crossings at half the mass left out on each side of the posterior with half a success and half a failure added; without trials the interval is the unit interval. |
| Quantile.DominanceAtEveryLowerMass | scripts/proof_bench.py:318-330 | A separation at a demanding level holds at every laxer one. |
| ParetoFront.BuildPairs | scripts/capability_screen.py:722-753 | The table holds an entry for every pair of measured cells of a class and nothing else, no two entries naming the same pair where no candidate has two rows in a class, and a class is underpowered if and only if it has two or more measured cells and none of its pairs separates. |
| ParetoFront.RelationIsDominance | scripts/capability_screen.py:758-767 | Read through the pair table, one candidate is better if and only if its interval dominates the other's. |
| ParetoFront.BetterIsStrictOrder | scripts/capability_screen.py:769-802 | Capability, cost and latency dominance is irreflexive and transitive. |
| ParetoFront.ParetoNondominated | scripts/capability_screen.py:769-802 | The nested loops with their early exits return the keys of exactly the undominated cells, in order. |
| ParetoFront.BeatenFromTheFront | scripts/capability_screen.py:769-802 | Every dominated cell is dominated by one that is itself undominated. |
| ParetoFront.FrontIsSoundAndCovers | scripts/capability_screen.py:769-802 | A cell is missing from the front if and only if some cell beats it, and then one on the front does; a class with a measured cell has a non-empty front. |
| CapabilityMap.BuildMap | scripts/capability_screen.py:807-818 | From cells with distinct keys and ordered intervals, the table, the underpowered classes and the front of the published map. |
| CapabilityMap.ScreenAndMap | scripts/capability_screen.py:361-485 | The whole screen against any attempt function and posterior at a non-negative mass publishes exactly the measured cells no cell beats, and every other measured cell is beaten by a published one. |
| Cascade.CostLatency.Accrue | scripts/capability_screen.py:487-492 | A transient attempt costs nothing; any other adds its tokens and seconds. |
| Cascade.CostLatency.Finalize | scripts/capability_screen.py:494-502 | Price per case from tokens; no price per pass when nothing passed. |
| Cascade.RetriedAttempt | scripts/capability_screen.py:321-358 | A retried attempt stops at the first non-transient result or its cap, counts each transient result once, and charges none of them. |
| Cascade.ScreenCell | scripts/capability_screen.py:400-446 | Smoke and screen of one cell: plumbing failure and unavailability are never a verdict; a cell is triggered if and only if some non-transient screen call fired, the cases before the firing one having been screened in vain; one whose smoke passed and which is not triggered was screened in vain at every case of its class. |
| Cascade.BayesCell | scripts/capability_screen.py:447-480 | Between cases x N and four times that many Bayes calls; n counts the non-transient ones and verified_k the verified among them. |
| Cascade.PhaseA | scripts/capability_screen.py:400-446 | Phase A makes no Bayes call, books every call to its own cell, and the survivors are the triggered cells. |
| Cascade.PhaseB | scripts/capability_screen.py:447-480 | Phase B calls the model for survivors only and leaves every other cell as screened. |
| Cascade.RunCascade | scripts/capability_screen.py:361-485 | Nothing runs before registration is enforced; every non-blank class has a cell per callable candidate; classes are taken one after another by name, screening precedes Bayes in each class, and within a phase candidates are called cheap first; each cell's calls are exactly its smoke calls, its screen attempts at its cases in order up to the one that fires, and, if triggered, N Bayes attempts at each of its cases; the calls carry the results of consecutive attempts; every cell's numbers and prices follow from its tally, and every ledger equals the tally of its own calls. |
| Cascade.UntriggeredWasScreened | scripts/capability_screen.py:361-485 | On the trace: a candidate whose smoke passed and which is not triggered has, for every case of its class, screen calls there, the last resolved without firing, or transient to the cap. |
| Cascade.TallyCounts | scripts/capability_screen.py:400-480 | Each column of a cell's tally is the number of that cell's calls that count in it: retries, Bayes calls, trials, verified passes, fired screens. |
| Cascade.PlannedIsProduct | scripts/capability_screen.py:447-480 | The planned number of Bayes trials is cases times N, none for a non-positive N. |
| ExploitLoop.GenerateWithReads | scripts/exploit_loop.py:297-331 | At most read_budget + 2 model calls and at most read_budget reads for one draft; a reply within the budget that asks for reads gets them and another turn, and only one turn is forced, behind a reply without code. |
| ExploitLoop.LoopState.Record | scripts/exploit_loop.py:380-396 | The spin counter equals the number of equal, informative signatures that end the recorded history. |
| ExploitLoop.SpinStep | scripts/exploit_loop.py:380-396 | How one more signature changes the length of the repeating end of the history. |
| ExploitLoop.RunLoop | scripts/exploit_loop.py:426-516 | Every budget holds for any model; exactly the tested drafts are charged; re-drafts start from the latest draft that compiled; it triggers on the first pass and nothing else; it goes on behind a scored draft if and only if calls are left, the deadline has not passed and the last spin_k + 1 signatures are not one repeated signature, and each early stop has its own reason; every tested draft is what some model turn returned, in order. |
| ExploitLoop.BoundsAsProducts | scripts/exploit_loop.py:426-516 | The bounds as products: B calls, retry_cap x B re-rolls, B x (retry_cap + 1) x (read_budget + 2) generations. |
| RepeatDetector.StreakIsLongestSuffix | audit_agent/proof/scaffold_reachability.py:1089-1145 | Over any history the streak is the length of the longest suffix with one call site, one selector and no adjacent equal known callers, and the change flag holds if and only if two adjacent entries in it have known different callers. |
| RepeatDetector.FiresIffLastEntriesRepeat | audit_agent/proof/scaffold_reachability.py:1097-1145 | The detector fires if and only if that many last entries repeat. |
| RepeatDetector.BaselineIsEverythingCalled | audit_agent/proof/scaffold_reachability.py:1212-1233 | The baseline is exactly what compiled attempts called, and the last called set is that of the last compiled attempt. |
| RepeatDetector.ReminderNamesWhatWasDropped | audit_agent/proof/scaffold_reachability.py:1212-1233 | A reminder is given if and only if a later compiled attempt that checks something no longer calls a method some compiled attempt called, and it names exactly those. |
| RepeatDetector.ExtractCaller | audit_agent/proof/scaffold_reachability.py:1064-1084 | The caller of the first target call is the armed one-shot prank if there is one, else the started prank still in force, else none. |
| Reachability.WalkEnds | audit_agent/planner/sig.py:176-185 | When a stack walk empties, exactly the nodes reachable from its starts were seen, cycles included. |
| Reachability.WalkVisits | audit_agent/planner/sig.py:176-185 | Popping an unseen node keeps the walk's bracket and uses up one more node, so the walk ends. |
| SymbolIndex.Index.IsSubtype | audit_agent/proof/solidity_index.py:173-192 | Subtype holds if and only if the ancestor is reached by zero or more base edges, cyclic bases included. |
| SymbolIndex.Index.ProvidesStateVarType | audit_agent/proof/solidity_index.py:156-171 | True if and only if some contract in the inheritance closure declares a variable of that type. |
| SymbolIndex.Index.StateVarTypes | audit_agent/proof/solidity_index.py:194-209 | Exactly the types declared somewhere in the inheritance closure. |
| SymbolIndex.Index.ProvidesAgreesWithTypes | audit_agent/proof/solidity_index.py:156-209 | A type is provided if and only if it is among the collected types. |
| SymbolIndex.SubtypingIsPreorder | audit_agent/proof/solidity_index.py:173-192 | Subtyping is reflexive and transitive on any index. |
| InterferenceGraph.StateInterferenceGraph.AddNodes | audit_agent/planner/sig.py:152-156 | One empty node per distinct non-empty function name. |
| InterferenceGraph.StateInterferenceGraph.AddEdges | audit_agent/planner/sig.py:158-173 | After the edge fold each node holds exactly the state its edges attach, the external-call flag, and the call graph of listed functions. |
| InterferenceGraph.Reachable | audit_agent/planner/sig.py:176-185 | The inner walk returns exactly what is reached by one or more calls. |
| InterferenceGraph.AbsorbingOne | audit_agent/planner/sig.py:187-192 | Adding a reachable callee's current, possibly already extended, sets adds nothing beyond what the caller must gather. |
| InterferenceGraph.StateInterferenceGraph.Propagate | audit_agent/planner/sig.py:187-192 | In place and in any order, every function ends with the union of the original sets over itself and everything it reaches. |
| InterferenceGraph.Build | audit_agent/planner/sig.py:137-194 | From the edge list alone: a function touches a variable if and only if a chain of calls leads to a listed function an edge attaches it to, and two functions of the built graph interfere if and only if both are listed and one writes, through whatever calls, what the other reads or writes. |
| InterferenceGraph.InterferesMeans | audit_agent/planner/sig.py:40-47 | The graph's own interference test, on a graph that holds what the edges say, is symmetric and means a shared variable that one of the two writes. |
| CodeGraph.FromLinks | scripts/codegraph.py:139-157 | One malformed link refuses the map; otherwise each node's out and in lists are its links in list order. |
| CodeGraph.AdjacencyMirrors | scripts/codegraph.py:139-157 | An edge is listed under its source if and only if under its target, if and only if it was a link. |
| CodeGraph.CodeGraph.Path | scripts/codegraph.py:201-223 | A contiguous chain of out-edges of minimum length; empty if and only if the ends are equal or not linked. |
| CodeGraph.NearIsSeen | scripts/codegraph.py:201-223 | While the queue's head is at distance d, everything linked within d has been seen no later than its chain allows. |
| CodeGraph.CodeGraph.WalkBack | scripts/codegraph.py:214-220 | The walk back through predecessors ends at the root and, reversed, is the tree path. |
| CodeGraph.ChainReadsForward | scripts/codegraph.py:201-223 | A chain read forwards: it starts at a, ends at b, and each edge starts where the one before ended. |
| BenchMatch.Scan | scripts/bench.py:188-200 | The scan returns the first unclaimed truth with the same location and tag, else the first near miss with its reason. |
| Sorting.SortByIsStable | scripts/bench.py:181-181 | Sorting keeps the order of elements with equal keys. |
| BenchMatch.MatchFindings | scripts/bench.py:182-210 | The greedy pass in id order refines the fold that claims truths one by one. |
| BenchMatch.MatchingPartitions | scripts/bench.py:182-210 | Produced findings split into matched, reviewed and spurious, truths into matched and missed; a match agrees in location and tag, a near miss in exactly one, its reason naming the other; nothing uncredited could have been credited with anything missed, and nothing spurious shares location or tag with it. |
| BenchMatch.MatchedIsTheOverlap | scripts/bench.py:182-210 | Per location and tag the matched count is the smaller of the produced and the true count. |
| BenchMatch.MatchedCountIgnoresOrder | scripts/bench.py:182-210 | Neither the order of the findings nor that of the labels changes the matched keys or their number. |
| BenchMatch.GreedyIsMaximum | scripts/bench.py:182-210 | No other way of pairing findings with truths one to one credits more. |
| BenchMatch.CreditGoesByOrder | scripts/bench.py:182-210 | Said by counting: credit goes to the least ids of each location and tag, as many as there are truths of it, and takes the truths listed first; the rest are missed. |
| BenchMatch.Score | scripts/bench.py:216-239 | The overall and per-tag shares are the matched counts over the true counts. |
| BenchMatch.ScoreMatching | scripts/bench.py:216-239 | Recall times the number of truths, and precision times the number of findings, is the number matched; all shares lie in [0, 1], and recall is 1 if and only if nothing was missed. |
| Roadmap.Rows | audit_agent/methodology/service.py:285-325 | The fold over order and state gives one row per target in first-mention order with that target's own row. |
| Roadmap.RowIsLastSettled | audit_agent/methodology/service.py:285-325 | A row tells the last check, skip or gap of its target, with its state, its chunk and, unless it is a check, its reason, whatever else came later. |
| Roadmap.RowIsFirstDiscovery | audit_agent/methodology/service.py:285-325 | Without one it is pending and tells the first discovery that named the target. |
| Roadmap.FirstMentionsOrder | audit_agent/methodology/service.py:285-325 | The row order is that of first mention. |
| Roadmap.FirstMentionsHolds | audit_agent/methodology/service.py:285-325 | Every mentioned target is listed, once, and no other. |
| Roadmap.DiscoveryOnlyAppends | audit_agent/methodology/service.py:295-302 | A discovery never changes an existing row: it only appends pending ones, of its own targets and with its chunk. |
| Roadmap.SettlingChangesOneRow | audit_agent/methodology/service.py:303-324 | A check, skip or gap rewrites its own target's row, or appends it, and leaves every other row. |
| Roadmap.Unpack | audit_agent/methodology/service.py:228-242 | Events and executions are the payload bodies of all items in log order. |
| Roadmap.FileIsBeforeTheColon | audit_agent/methodology/service.py:254-273 | The file of a finding is what stands before the first colon of its location. |
| Roadmap.FirstAndLast | audit_agent/methodology/service.py:201-263 | The query finds the first finding of an id, the dictionary keeps the last. |
| Roadmap.GroundingMap | audit_agent/methodology/service.py:254-273 | An id is grounded if and only if an analyzer that ran on the file of the last finding of that id reported it. |
| Roadmap.FirstAnalyzerIs | audit_agent/methodology/service.py:40-52 | The analyzer shown for a finding is that of the earliest execution that ran and reported it, and none if and only if there is no such execution. |
| Roadmap.IsGrounded | audit_agent/methodology/service.py:194-219 | The query: a future watermark is rejected; otherwise true if and only if an analyzer that ran on the wanted file, and bytes when named, reported the id, the file being that of the first finding of that id by default. |
| Roadmap.GroundingAgreesIff | audit_agent/methodology/service.py:194-273 | Query and map agree on an id for every list of executions if and only if the first and the last finding of that id name the same file. |
| Roadmap.DistinctIdsAgree | audit_agent/methodology/service.py:194-273 | With unique finding ids they always agree. |
| Roadmap.Project | audit_agent/methodology/service.py:30-60 | The projection is a function of the watermark, the events, the executions and the findings, and a future watermark is rejected. |
| Roadmap.Apply | audit_agent/methodology/service.py:62-149 | A request is rejected exactly on a future watermark, unsupported exactly on another action, and invalid exactly when a target or a reason it needs is missing; an accepted one projects the log with its own event and executions at the end, and the explicit empty label never changes that. |
| Roadmap.CommitProjectsAsImagined | audit_agent/methodology/service.py:140-149 | Once items with the same payloads and no findings are committed, in however many items, projecting the longer log gives the transition's own projection. |
| Roadmap.AcceptedActionShows | audit_agent/methodology/service.py:77-149 | What each accepted action writes and does to the published roadmap: its event's revision, watermark, outcome, targets, chunk and reason; a check, skip or gap shows in its target's row, with its reason, and in no other; a discovery lists its targets as pending with its chunk and changes nothing listed before; a synthesis only sets the empty label, and exactly when it had nothing to work on. |
| Roadmap.Session | audit_agent/methodology/service.py:62-149 | Over a whole session revisions number the events without gap or repetition, whatever was refused in between. |
| Cursor.PartitionChunks | audit_agent/methodology/cursor.py:21-34 | Chunk k is the k-th slice of 32 of the sorted listing, with the digest of its revision and paths. |
| Cursor.PartitionIsTheListing | audit_agent/methodology/cursor.py:21-34 | The chunks in order are the sorted listing, all full but possibly the last, none empty. |
| Cursor.ChunkIdsDiffer | audit_agent/methodology/cursor.py:12-34 | Distinct paths and an injective digest give every chunk its own id. |
| Cursor.NewRevisionStartsOver | audit_agent/methodology/cursor.py:12-34 | Chunks cut at another revision share no id. |
| Cursor.FirstUncommitted | audit_agent/methodology/cursor.py:37-45 | The first chunk whose id is not committed, or none when all are. |
| Cursor.Drain | audit_agent/methodology/cursor.py:37-45 | Taking and committing the first uncommitted chunk until there is none visits the sorted listing once, in order, in ceil(n / 32) steps. |
| Stage3.CorrectionIsLeastChange | audit_agent/guardrails/severity.py:35-78 | A severity is corrected if and only if it breaks a rule, and by no more than it takes to keep both. |
| Stage3.NeverChainedAlone | audit_agent/planner/stage3.py:87-100 | Every chained finding has another chained finding in its file, so the elevated set never has exactly one member. |
| Stage3.SynthesisFits | audit_agent/planner/stage3.py:60-100 | Mitigated findings end at medium or below, unmitigated ones with four or more active preconditions at high or above, chains included. |
| Stage3.SynthesisTwice | audit_agent/planner/stage3.py:44-102 | Synthesis is idempotent under fixed graphs. |
| Stage3.InteractsMeans | audit_agent/planner/stage3.py:69-86 | Two findings interact if and only if they are in one file and there is no graph for it, or their functions both write, or one writes and the other reads, some state variable. |
| Stage3.LocationParts | audit_agent/planner/stage3.py:69-86 | The file of a location is what stands before its first colon, the function what stands behind its last. |
| Stage3.SeverityIs | audit_agent/planner/stage3.py:87-100 | A finding ends critical if it is in a chain, and as its own correction otherwise. |
| Stage3.LinksAreMutual | audit_agent/planner/stage3.py:69-86 | With unique ids, of two findings of one file one names the other if and only if it is named back: always where the file has no graph, and otherwise if and only if their functions share state that one of them writes. |
| Stage3.CorrectAll | audit_agent/planner/stage3.py:60-66 | The first loop leaves every finding corrected in place and counts the corrections. |
| Stage3.ElevateIn | audit_agent/planner/stage3.py:89-94 | The elevated members of a group are exactly the chained ones, and never one alone. |
| Stage3.CombineGroup | audit_agent/planner/stage3.py:70-100 | Linking and elevation in place leave a group's findings combined, others untouched, and report a chain if and only if there is one. |
| Stage3.RunStage3 | audit_agent/planner/stage3.py:44-102 | In place, the findings end as the synthesis of what they were, and a chain is reported for exactly the files that hold a chained finding. |
| Extractor.WalkLines | audit_agent/proof/solidity_utils.py:125-150 | The brace-depth loop refines the line fold that the theorems on where a source ends are about. |
| Extractor.ExtractSolidity | audit_agent/proof/solidity_utils.py:108-168 | The loops compute the extraction that the lemmas below are about. |
| Extractor.ExtractIsARun | audit_agent/proof/solidity_utils.py:108-168 | The extraction is a contiguous run of reply lines from the first token line on, stripped; empty if and only if no line starts with a token. |
| Extractor.SourceEndsWithItsPieces | audit_agent/proof/solidity_utils.py:125-168 | Over lines and brace counts alone: a source is its first unit, which ends where the braces opened so far are closed, and what follows it without prose between, further units, line comments and block comments; the extraction ends with the last of them. |
| Extractor.OneUnitReply | audit_agent/proof/solidity_utils.py:125-168 | The same for one unit: with prose behind it, or nothing, the extraction is the stripped text from the first token line to the line at which its braces balance. |
| Extractor.OpenUnitGoesOn | audit_agent/proof/solidity_utils.py:125-168 | The converse: while more braces are open than closed, no line ends the extraction. |
| Extractor.BodilessReply | audit_agent/proof/solidity_utils.py:125-168 | Without any opening brace, the source is the leading lines that start with a token or a line comment or end a statement, up to the first line that does neither. |
| Extractor.FencedReply | audit_agent/proof/solidity_utils.py:94-106 | Around a fenced reply, exactly the two fence lines are taken off. |
| Extractor.StopDependsOnPrefix | audit_agent/proof/solidity_utils.py:125-150 | Once the walk has stopped, two replies that agree up to there end at the same line. |
| Extractor.TextAfterStopIsIgnored | audit_agent/proof/solidity_utils.py:125-168 | What follows the stopping line cannot change what is extracted. |
| Extractor.ExtractIsIdempotent | audit_agent/proof/solidity_utils.py:94-168 | Extracting twice is extracting once, on every reply. |

## Left out

- Language model clients, Docker, `forge` and git subprocesses, file reads and writes: arbitrary functions or scripts of answers here.
- The kernel of memory, executor and confirmation store that the methodology package imports is not part of this model.
- Regular-expression heuristics over Solidity and `forge` text: parsed signatures, selectors, call sites, statements and the compiled and passed bits are given values. The deterministic fixer is an arbitrary function from a body to another body or none.
- The Beta distribution function (`_betai`, `_betacf`): an arbitrary function; its numeric accuracy is not modelled. Floats are reals; the bisection's endpoints are short dyadic numbers.
- Rounding of shares and prices to four or six places in published records.
- Digits in hunk headers are ASCII; the source's pattern also takes other decimal digits.
- The per-model and per-class breakdowns of the scaffold taxonomy, the funnel of the proof bench and the runner-event parser: sums of the same shape as those proved.
- The claim that a stage is verified if and only if the finding's outcome is a verified pass is not made: an error logged inside in-place repair forces the stage regardless of later attempts.
- Registration files and their content hashes: the registered subjects and classes are given sets.
- Node identifiers of the structural graph are given by their short names, and normalised benchmark locations by a pair of strings.
- Parsing of Solidity sources into the symbol index: the base and variable-type maps are given.
- `find`, `callers`, `callees` and `dependencies` of the code map, `can_reenter` and `get_filtered_pairs` of the interference graph, `parity` of the roadmap: filters and sorts over what is modelled.
- Payload bodies that fail their own validation inside a snapshot, which raise out of the projection: bodies are given parsed.
- The node records of the code map, whose own malformed entries refuse it too: only its links are modelled.
- The fallbacks that pick an action's parameters in `apply`: an action comes with the parameters it ends up with.
- The findings that a synthesis transition returns: only its event and projection are modelled there; the synthesis itself is `Stage3`.
- Message texts of corrections, reminders and chains: which of them are given, and about what, is modelled.
- `partition_chunks` with a size other than its default of 32.
- The frontend, the command line, the configuration and the report rendering.
- QueueAccounting.RunQueue: finding ids are required to be distinct, which the queue file is meant to give but the loop does not check.
- Appliers that search for a hunk away from its line numbers: the strict one does not.
- ProofLifecycle.AttemptLoop: the agentic path's early returns, which quarantine nothing, are in `QueueAccounting.ProcessFinding`, which promises nothing about the file they leave.
- Cursor.Drain: paths are required to be distinct once separators are normalised; two chunks of identical paths share an id and are visited once.
- Stage3.LinksAreMutual: a finding alone in its file keeps whatever links it came with, so the statement is about two findings of one file.
- Cascade.RunCascade: candidate ids are required to be distinct; equal ids would share one cost record.
