# Verified model of the ORES GitHub bots

These Dafny modules model the decision logic of a fleet of GitHub bots and prove what it guarantees.
GitHub, the job queue, the review engine, git remotes and other writers are adversarial: they are parameters
or steps that may answer anything, at any time, and the theorems hold for every answer.

| Component | Modules | Main results |
|---|---|---|
| Fail-stop worker pool | `WorkerPool`, `WorkerPoolRuns`, `WorkerPoolEvents` | exactly which sequences of sections are runs; in every interleaving each claim is acknowledged at most once and only for the reason that fits; health is one interval of a run; nothing is claimed after an abort event; an aborted pool drains |
| Merge reaper | `MergeOrder`, `MergeReaper`, `MergeReaperSafety` | the optimistic single-pass plan contains the greatest dependency-closed set, the apply loop stays inside the least one; the batch is the oldest available candidates up to the maximum; dependencies merge strictly earlier, cycles never; a planned cycle aborts the run |
| Managed `.gitignore` block | `Gitignore`, `GitignoreStability`, `GitignoreRules` | the whole patch in terms of the lines of the text; three patches equal two; two equal one exactly when there is no open block; every pattern is covered; other lines survive |
| Agent markers | `AgentTags`, `AgentTagsRoundTrip`, `AgentTagsGrammar` | printing then parsing is the identity; exactly which markers any body holds; exactly which attestations are written |
| Credentials as dotenv | `Dotenv`, `DotenvRoundTrip`, `DotenvReading` | what any text is read as, line by line; exactly when a document, and a private key in it, reads back as written |
| Nightly reconciler | `DepGraph`, `Readiness`, `ReadinessFacts`, `Reconcile`, `ReconcileSafety`, `ReconcileTurns`, `ReportContract` | the calls and the outcome of every turn in terms of what GitHub answered; never a merge while a neighbour in the dependency graph moved; exactly one dossier for a conflict; every returned report is publishable |
| Fleet push | `FleetPush`, `FleetPushReport`, `FleetPushSafety`, `FleetPushRuns`, `FleetPushRecreation` | what each clone and branch is reported as; every write is from a fetched clone of ours; remote branches only move to descendants; every branch is counted once; a second run pushes nothing; a dry run forecasts; exactly which runs bring a deleted branch back |
| Workflow evidence | `Admission`, `AdmissionLaws`, `AdmissionTexts` | outcome, flags, counts and refusals in terms of the texts that arrive; exactly when evidence does not block; order of jobs is irrelevant; blocking survives extension |
| Fleet-hardening documents | `FleetHardening`, `FleetHardeningLaws`, `FleetHardeningReport` | every problem of every place is reported, once and in order; a pair without findings is pinned to one literal document |

`JsText` holds the JavaScript string operations the text transformers use and says what each of them does to the
characters of a text, `Collections` two facts about sequences and
sets, `Wrappers` the option and result types.
Code that updates state step by step is a class or a method with a loop (`Supervisor`, `Sweep`, `Findings`, `Client`,
the loops of the reaper, the graph, the reviews and the classifier), each proved equal to a specification function;
the theorems are lemmas about those functions. For each main operation some of them speak of the events, texts and
answers that come in and of what goes out, without naming the function or its helpers: `WorkerPoolEvents`, the batch of
`MergeReaper`, `GitignoreRules`, `AgentTagsGrammar`, `DotenvReading`, `ReadinessFacts`, `ReconcileTurns`,
`FleetPushReport`, `AdmissionTexts` and `FleetHardeningReport`.

`dafny verify dfyconfig.toml` checks everything.

## Findings

* `reconcilePull` returns `escalate()` without awaiting it inside its `try` (src/reconcile.ts:156 and 160), so a failed
  file listing, label or comment call rejects the whole pass instead of becoming a `failed` outcome, and the report of
  what was already merged is lost. The model follows the code: `RejectedExactly`, `UnreadableFilesRejectThePass`.
* `patchGitignore` is described as idempotent (src/hygiene/gitignore.ts:1-12). It is, except on a text that has a start
  marker, no end marker and a pattern still uncovered: there the second patch replaces everything from the stray start
  to the appended end. `SecondPatchExact` gives the condition in both directions, `LoneStartIsPatchedTwice` one
  such text, `ThirdPatchChangesNothing` the bound.
* A dotenv document reads back as written exactly when the App slug adds no line of its own to the header comment
  (`DocumentRoundTrip`; a two-line slug in `SlugLineSpoilsTheDocument`), and a key exactly when it has visible ends, no
  literal backslash-n and no `base64:` prefix (`KeyRoundTrip`; one key of each kind in `KeysThatAreLost`). A lone
  carriage return survives inside a key; only line breaks are normalised.
* An attestation parses back exactly when its check-run identifier keeps the session in form (`AttestationParses`; an
  identifier with a blank in `BlankInSessionIsLost`), and so does the list for all providers (`AttestationListParses`).
* The planning pass can select a candidate whose dependency it rejects later in the same pass
  (`PlanningCanBeOptimistic`); the apply loop never merges it (`ApplyStaysWithinLeast`). A cycle among the planned
  candidates aborts the whole apply run, and with unique keys nothing else does (`Reap`).
* The fleet push means never to resurrect a branch that was deleted on origin (scripts/push-fleet.sh:107-116), and does
  in two cases. A branch that was fetched and is ahead locally is created when others delete it before its push
  (`RaceRecreates`, `RaceExample`). A branch without a configured upstream is created whenever it was not fetched: a plain
  push that fast-forwards sets no upstream, so a branch that was ever only fast-forwarded comes back on the run after its
  deletion, with nobody else writing (`DeletedBranchComesBack`). These are all: `CreatesExactly` gives the condition for
  one push, `RunCreatesExactly` for a whole run whatever others do, `CalmRunBringsBackExactly` for a run in which nobody
  writes after the fetches, `SecondRunBringsBackExactly` for a run after another. With an upstream only the race is left
  (`RecreationNeedsARace`).
* A schema without findings accepts no document but the canonical one, yet it may accept nothing at all, because the
  validator reads no `type` beside a `const` and no `const` at an object (`CanonicalPairMayAcceptNothing`);
  `AcceptsExactly` says when it accepts the canonical document.

## Model

Rows whose last column begins with "supporting fact" follow by unfolding one or two definitions; the others are the
results and the methods that refine them.

| member | source | states |
|---|---|---|
| WorkerPoolEvents.AbortStopsThePool | apps/orchestrator/src/worker.mjs:16-19 | in every run, after an external abort or a stop event nothing is claimed, the pool is aborted and never healthy again, and a task that starts is over at once |
| WorkerPoolEvents.RunsExactly | apps/orchestrator/src/worker.mjs:16-67 | a sequence of sections is a run exactly when every event is allowed by the events before it, for claims, heartbeats, settlements, acknowledgements and exits alike |
| WorkerPoolEvents.ObservedExactly | apps/orchestrator/src/worker.mjs:86-112 | what the pool shows its caller, read off the events: `stopping`, `failed`, one callback, `active` as the workers begun and not over, settled when all are over |
| WorkerPoolEvents.HealthyExactly | apps/orchestrator/src/worker.mjs:110-110 | healthy exactly while nobody asked to stop, nothing failed and every worker has begun |
| WorkerPoolRuns.AcknowledgementStory | apps/orchestrator/src/worker.mjs:16-67 | in every run, each `complete` or `fail` ends a story in which the worker claimed that job, every heartbeat kept the lease, and the engine settled once: resolved for `complete`, thrown for `fail` |
| WorkerPoolRuns.OneAcknowledgementPerClaim | apps/orchestrator/src/worker.mjs:16-67 | two acknowledgements of one worker have a claim between them |
| WorkerPoolRuns.SettlingAccountsForEveryClaim | apps/orchestrator/src/worker.mjs:46-67 | when all tasks have exited, every claimed engine call has returned and every claim was accepted once or the pool failed |
| WorkerPoolRuns.NoClaimAfterAbort | apps/orchestrator/src/worker.mjs:16-19 | no `claimNext` in any state after one with the signal aborted; that the abort events raise it is `WorkerPoolEvents.AbortStopsThePool` |
| WorkerPoolRuns.FatalExactlyOnInfrastructureFailure | apps/orchestrator/src/worker.mjs:46-67 | the callback fires at most once, only after an infrastructure failure, and in a settled pool exactly when there was one |
| WorkerPoolRuns.SoundRun | apps/orchestrator/src/worker.mjs:86-106 | in every reachable state `active` is the number of tasks inside their body and the callback count matches the failure flag |
| WorkerPoolRuns.ActiveOnlyFallsAfterAbort | apps/orchestrator/src/worker.mjs:100-106 | `active` can only fall once the signal is aborted |
| WorkerPoolRuns.HealthIsAnInterval | apps/orchestrator/src/worker.mjs:110 | health that was lost never comes back |
| WorkerPoolRuns.HealthyMeansAllIn | apps/orchestrator/src/worker.mjs:110 | a healthy pool has every expected worker inside its body and has not failed |
| WorkerPoolRuns.DrainIsBounded | apps/orchestrator/src/worker.mjs:16-23 | from an aborted state every worker step other than a heartbeat lowers a rank of at most four per worker |
| WorkerPoolRuns.DrainProgresses | apps/orchestrator/src/worker.mjs:98-107 | an aborted pool that has not settled always has a next step, which lowers the rank |
| WorkerPoolRuns.ExplainsRun | apps/orchestrator/src/worker.mjs:26-49 | the phase of each task tells exactly which events it saw since its last claim |
| WorkerPoolRuns.ActiveStep | apps/orchestrator/src/worker.mjs:100-106 | one section changes `active` exactly as it changes the number of tasks inside their body |
| WorkerPool.CreateWorkerPool | apps/orchestrator/src/worker.mjs:79-86 | the concurrency is accepted exactly between 1 and 64, and the pool starts with every task deferred |
| WorkerPool.Supervisor.ReportFatal | apps/orchestrator/src/worker.mjs:88-97 | the latch: first failure only, abort, one callback |
| WorkerPool.Supervisor.StartTask | apps/orchestrator/src/worker.mjs:100-103 | a deferred task enters its body, or exits at once when already aborted |
| WorkerPool.Supervisor.ClaimLoop | apps/orchestrator/src/worker.mjs:16-24 | the signal is tested before each claim; a throwing queue fails the loop |
| WorkerPool.Supervisor.WakeUp | apps/orchestrator/src/worker.mjs:21-22 | a sleep that throws fails the loop unless the signal is aborted |
| WorkerPool.Supervisor.BeatHeart | apps/orchestrator/src/worker.mjs:27-39 | the first lost heartbeat is latched and reported while the engine still runs; later beats do nothing |
| WorkerPool.Supervisor.EngineSettles | apps/orchestrator/src/worker.mjs:41-44 | the engine call settles and the heartbeat stops |
| WorkerPool.Supervisor.Acknowledge | apps/orchestrator/src/worker.mjs:46-66 | no acknowledgement after a lost lease, `fail` after a throw, `complete` otherwise |
| WorkerPool.Supervisor.CatchFailure | apps/orchestrator/src/worker.mjs:104-105 | a rejected loop reports the failure and leaves its body |
| WorkerPool.Supervisor.FinishTask | apps/orchestrator/src/worker.mjs:105 | a finished loop leaves its body |
| WorkerPool.Supervisor.IsHealthy | apps/orchestrator/src/worker.mjs:110 | health as reported is the health the theorems speak of |
| MergeReaper.FrontIsBatch | apps/reaper/src/main.mjs:373-381 | the front of the greedy order is the batch: the smaller of the maximum and the number planned, each time the oldest candidate that waits for no planned one left |
| MergeReaper.BatchUnique | packages/engine/src/merge-reaper.mjs:386-418 | that rule leaves no choice: two selections by it agree |
| MergeReaperSafety.OutcomeExactly | apps/reaper/src/main.mjs:385-430 | the outcome of every turn: unmet in the batch, rejected afresh, merged or failed, each exactly when the recorded dependencies, the fresh reading and the merge call say so |
| MergeReaperSafety.PlanningIncludesGreatest | apps/reaper/src/main.mjs:194-234 | whatever the candidate order, planning leaves eligible every member of every dependency-closed eligible set |
| MergeReaperSafety.ApplyStaysWithinLeast | apps/reaper/src/main.mjs:371-434 | whatever is read afresh, only candidates of the least such set merge |
| MergeReaperSafety.FavourableRunIsExact | apps/reaper/src/main.mjs:371-434 | with favourable fresh answers exactly the selected members of the least set merge |
| MergeReaperSafety.PlanExact | apps/reaper/src/main.mjs:214-234 | exactly what the in-place pass leaves eligible, dependency by dependency |
| MergeReaperSafety.LeastIsPlanned | apps/reaper/src/main.mjs:214-234 | the least set is inside the plan |
| MergeReaperSafety.LeastIsClosed | apps/reaper/src/main.mjs:214-234 | the least set supports its members, so it lies inside the greatest |
| MergeReaperSafety.PlanningCanBeOptimistic | apps/reaper/src/main.mjs:214-234 | a batch of two on which planning accepts more than any closed set holds |
| MergeReaperSafety.MergedDependenciesEarlier | apps/reaper/src/main.mjs:385-430 | a merged candidate's recorded in-batch dependencies all merged in strictly earlier turns |
| MergeReaperSafety.FreshDependenciesMerged | apps/reaper/src/main.mjs:394-421 | each freshly read dependency was merged by this run or read live as merged, never `eligible-earlier` |
| MergeReaperSafety.ChainMergesBackwards | apps/reaper/src/main.mjs:387-392 | along a chain of dependencies the far end merged strictly first |
| MergeReaperSafety.UnmergedBlocksDependents | apps/reaper/src/main.mjs:387-392 | one rejection blocks all transitive dependents |
| MergeReaperSafety.CycleNeverMerges | apps/reaper/src/main.mjs:387-392 | no member of a dependency cycle merges |
| MergeReaper.ResolveDependencies | apps/reaper/src/main.mjs:194-223 | a candidate's dependency states, each outside key asked at most once and cached |
| MergeReaper.ApplyDependencyStates | apps/reaper/src/main.mjs:214-234 | the pass over the evaluations, updated in place, computes the plan |
| MergeReaper.ResolveFreshDependencyStates | apps/reaper/src/dependency-states.mjs:1-9 | merged by this run, or whatever is read live |
| MergeReaper.ApplyMerges | apps/reaper/src/main.mjs:385-434 | the apply loop decides every turn from what merged before it and collects the merged keys |
| MergeReaper.FrontIsScheduled | apps/reaper/src/main.mjs:373-381 | the front of an order of the eligible candidates puts each after its planned dependencies |
| MergeReaper.Reap | apps/reaper/src/main.mjs:371-435 | plan, order, select and apply: the batch is the smaller of the maximum and the number planned, always the oldest available candidate next, with these outcomes; with unique keys it aborts exactly when the planned candidates wait for each other in a cycle |
| MergeReaper.SelectBatch | apps/reaper/src/main.mjs:371-381 | the batch (the smaller of the maximum and the number planned, always the oldest available candidate next), a duplicate-key error exactly when two planned candidates share a key, a cycle error exactly when they are cyclic |
| MergeOrder.OrderMergeCandidates | packages/engine/src/merge-reaper.mjs:350-411 | an order of all candidates exactly when keys are unique and there is no cycle; the order is the greedy one |
| MergeOrder.EmitReady | packages/engine/src/merge-reaper.mjs:393-405 | the loop emits a greedy order and stops only when nothing is ready |
| MergeOrder.Release | packages/engine/src/merge-reaper.mjs:398-404 | releasing a candidate lowers its dependents' counts and makes ready those at zero |
| MergeOrder.TakeFirst | packages/engine/src/merge-reaper.mjs:386-396 | the least ready candidate by age, then key |
| MergeOrder.DependentsTable | packages/engine/src/merge-reaper.mjs:357-384 | the edges: recorded dependencies and repository dependencies inside the batch |
| MergeOrder.GreedyRespectsEdges | packages/engine/src/merge-reaper.mjs:395-405 | every candidate follows what must precede it |
| MergeOrder.GreedyComplete | packages/engine/src/merge-reaper.mjs:406-410 | a full-length order holds every candidate once |
| MergeOrder.GreedyUnique | packages/engine/src/merge-reaper.mjs:386-405 | the order is determined by the edges and the comparison |
| MergeOrder.StuckIsCyclic | packages/engine/src/merge-reaper.mjs:406-409 | candidates that only wait for each other contain a cycle |
| MergeOrder.CompleteOrderIsAcyclic | packages/engine/src/merge-reaper.mjs:406-409 | a complete order rules a cycle out |
| GitignoreRules.PatchWithBlock | src/hygiene/gitignore.ts:50-77 | a text with a block, line by line: unchanged when nothing is missing outside or the block holds just that, otherwise the block's lines are replaced and nothing else |
| GitignoreRules.PatchWithoutBlock | src/hygiene/gitignore.ts:57-86 | a text without a block: unchanged when nothing is missing, otherwise a block of what is missing below an empty line |
| GitignoreRules.CreatedFile | src/hygiene/gitignore.ts:79-81 | a missing file is created with both patterns between the markers |
| GitignoreRules.BothIgnored | src/hygiene/gitignore.ts:17-48 | after every patch some line ignores `tmp/temp` and some line `tmp/worktrees` |
| GitignoreRules.LineIgnores | src/hygiene/gitignore.ts:35-48 | a line covers a directory exactly when, trimmed, it is no comment or negation and its path without outer slashes is that directory or one above it, segment by segment |
| GitignoreRules.MissingExactly | src/hygiene/gitignore.ts:57-59 | what is missing is decided by the lines outside the block alone |
| GitignoreStability.SecondPatchExact | src/hygiene/gitignore.ts:50-86 | two applications equal one exactly when the text has no open block that still needs a pattern; empty, null and CRLF input included |
| GitignoreStability.LoneStartIsPatchedTwice | src/hygiene/gitignore.ts:50-86 | a lone start marker is an open block: the second patch changes what the first one wrote |
| GitignoreStability.ThirdPatchChangesNothing | src/hygiene/gitignore.ts:50-86 | three applications equal two, for every text |
| GitignoreStability.EveryPatternCovered | src/hygiene/gitignore.ts:57-86 | after every patch all managed patterns are covered |
| GitignoreStability.UpdateKeepsOtherLines | src/hygiene/gitignore.ts:72-77 | an update keeps every other line, in order, and writes exactly the needed block |
| GitignoreStability.AppendKeepsText | src/hygiene/gitignore.ts:83-86 | an append keeps the old text up to trailing blanks as a prefix |
| GitignoreStability.OneBlockOrNone | src/hygiene/gitignore.ts:50-86 | a text without markers gets exactly one block, or none |
| GitignoreStability.BlockPatchStable | src/hygiene/gitignore.ts:72-77 | a located block is stable after one patch |
| GitignoreStability.AppendStability | src/hygiene/gitignore.ts:83-86 | an appended block is stable exactly without an open start marker |
| GitignoreStability.NeededExact | src/hygiene/gitignore.ts:59 | the needed patterns are exactly the uncovered ones |
| GitignoreStability.CoveredMonotone | src/hygiene/gitignore.ts:35-48 | more lines never uncover a pattern |
| GitignoreStability.RebuiltLines | src/hygiene/gitignore.ts:75 | rendering and splitting the block gives back its lines between the kept ones |
| Gitignore.FindLine | src/hygiene/gitignore.ts:53-54 | the first line that is the marker once trimmed |
| Gitignore.FleetWellFormed | src/hygiene/gitignore.ts:14-18 | the fleet's markers and patterns are distinct, visible single lines |
| AgentTagsGrammar.ParsedExactly | packages/core/src/agent-tags.mjs:15-67 | the markers of any body: its comments are found from left to right, none overlapping and none left out, the first sixteen are looked at, and each whose words describe a marker gives that marker |
| AgentTagsGrammar.ParsedOnly | packages/core/src/agent-tags.mjs:61-67 | and nothing else is a parse: a list of markers fits that reading exactly when it is the one returned |
| AgentTagsGrammar.SearchExactly | packages/core/src/agent-tags.mjs:15 | the matches of the pattern are exactly the comments of the three kinds, with a body of 1 to 512 characters without `>` |
| AgentTagsGrammar.FieldsExactly | packages/core/src/agent-tags.mjs:16-59 | words are read as an object exactly when they are its fields, each once in any order, with the names and forms of its kind |
| AgentTagsGrammar.AttestationExactly | packages/core/src/agent-tags.mjs:40-96 | an attestation is written exactly for a known provider, a full head and a review that did not fail and has an identifier, and is this text, approving only an approval |
| AgentTagsGrammar.AttestationsExactly | packages/core/src/agent-tags.mjs:98-102 | the list is the attestation of `openai`, if any, and then that of `claude` |
| AgentTagsRoundTrip.ParseUndoesPrint | packages/core/src/agent-tags.mjs:15-67 | up to 16 valid markers between texts without `<` parse back to exactly themselves, in order |
| AgentTagsRoundTrip.ParsingIsClosed | packages/core/src/agent-tags.mjs:51-67 | from any body at most 16 markers come back, each with exactly its schema's keys in form, each literally written there |
| AgentTagsRoundTrip.AttestationParses | packages/core/src/agent-tags.mjs:85-96 | an attestation parses back to its fields exactly when its session is in form, with verdict approve exactly when the review approved |
| AgentTagsRoundTrip.AttestationListParses | packages/core/src/agent-tags.mjs:98-102 | the lines for all providers parse back to one marker per attested provider exactly when every attested session is in form |
| AgentTagsRoundTrip.BlankInSessionIsLost | packages/core/src/agent-tags.mjs:85-96 | an attestation the builder writes for a check-run identifier with a blank does not parse back |
| AgentTagsRoundTrip.DocumentMatches | packages/core/src/agent-tags.mjs:15 | leftmost lazy matching finds exactly the printed markers |
| AgentTagsRoundTrip.PrintedMatches | packages/core/src/agent-tags.mjs:15 | a printed marker matches at its start, with its own kind, body and length |
| AgentTagsRoundTrip.EntriesByKey | packages/core/src/agent-tags.mjs:51-59 | distinct in-form fields become an object that holds each of them and nothing else, all in form |
| AgentTags.BodyEnd | packages/core/src/agent-tags.mjs:15 | the lazy repetition ends at a closing within the bound |
| DotenvReading.ReadingExactly | scripts/lib/github-app-policy.mjs:22-37 | any text, on its raw lines: the last value of each key and the repeated keys in order, or the first line that is neither skipped nor an entry, with its number and what is wrong with it |
| DotenvReading.KeyExactly | apps/reaper/src/main.mjs:43-48 | a value is no key when blank, base64 text after the marker, and otherwise the trimmed text with a line feed for every backslash-n |
| DotenvReading.DocumentExactly | scripts/app-manifest.mjs:147-257 | the written document, character by character, with each secret's lines joined by backslash-n |
| DotenvRoundTrip.PrivateKeyRoundTrip | scripts/app-manifest.mjs:147-257 | written, read and unescaped, the key is itself with LF breaks; no duplicates; other entries untouched |
| DotenvRoundTrip.KeyRoundTrip | apps/reaper/src/main.mjs:43-48 | a written key comes back exactly when it has visible ends, no literal backslash-n and no base64 marker |
| DotenvRoundTrip.DocumentRoundTrip | scripts/lib/github-app-policy.mjs:22-37 | the document reads back as its entries without duplicates exactly when the slug adds no line |
| DotenvRoundTrip.SlugLineSpoilsTheDocument | scripts/lib/github-app-policy.mjs:22-37 | valid credentials with a two-line slug whose document does not read back |
| DotenvRoundTrip.KeysThatAreLost | apps/reaper/src/main.mjs:43-48 | a key with a blank start, one with a literal backslash-n and one with the base64 marker do not come back |
| DotenvRoundTrip.UnescapeUndoesEscape | scripts/app-manifest.mjs:147-149 | without a literal backslash-n, unescaping undoes escaping up to CRLF |
| DotenvRoundTrip.EscapedLiterals | scripts/app-manifest.mjs:147-149 | escaping adds one backslash-n per break and hides none |
| DotenvRoundTrip.ReadEntry | scripts/lib/github-app-policy.mjs:28-34 | a written entry line is read as its key and value |
| Dotenv.ParseDotenv | scripts/lib/github-app-policy.mjs:22-37 | the loop returns the entries, the duplicates, or the first invalid line |
| ReconcileTurns.TurnOnTheFacts | src/reconcile.ts:100-196 | for everything GitHub may answer: the calls a turn issues, in order, and its outcome or rejection, decided by what was read |
| ReconcileTurns.CommentCallExactly | src/reconcile.ts:171-190 | the dossier comment is attempted exactly when the label call was issued and succeeded, and directly after it |
| ReconcileTurns.ConflictGetsOneDossier | src/reconcile.ts:171-196 | over any number of nights while the label stays, the conflict that gets its label gets exactly one comment attempt, that night |
| ReconcileTurns.OutcomeOnTheFacts | src/reconcile.ts:123-133 | the reported identity, confidence, rounded hours and moved neighbours are those of what was read |
| ReconcileTurns.PassReportsEveryPull | src/reconcile.ts:227-268 | a pass that does not reject reports every pull request of every readable list at its place, with what its turn returned, and counts them |
| ReconcileSafety.MergeCallExactly | src/reconcile.ts:123-148 | a merge call is issued exactly in apply mode with all gates passed, an independent last-word approval, a completed check and a clean state; it is then the only call |
| ReconcileSafety.WarrantedOnTheFacts | src/readiness.ts:48-137 | that condition in terms of what was read: 55 hours open, no draft, conflict or hold label, nobody's last word requesting changes, someone else's approving, every check completed and passing with at least one, nothing that disturbs pushed since |
| ReconcileSafety.NeverMergesWhileDisturbed | src/reconcile.ts:87-98 | never while a direct dependency, dependent or dependent's dependent was pushed after the pull request moved |
| ReconcileSafety.TurnDependsOnVerdictsOnly | src/readiness.ts:52-64 | inserted comments or pending reviews and swapped reviewers change nothing the turn does |
| ReconcileSafety.ProtectedSeesNoCall | src/reconcile.ts:135-196 | drafts, held pull requests and dry runs see no mutating call |
| ReconcileSafety.OneDossier | src/reconcile.ts:171-196 | over any number of nights, with any failing calls, at most one dossier comment while the label stays |
| ReconcileSafety.UnreadableFilesRejectThePass | src/reconcile.ts:199-269 | one such failure rejects the whole pass, whatever follows |
| ReconcileSafety.ConflictEscalates | src/readiness.ts:129-145 | a conflict is escalated exactly when the pull request is neither draft nor held |
| ReconcileSafety.UpdateCallExactly | src/reconcile.ts:150-157 | a branch update is attempted exactly in apply mode, without a hold, draft or conflict, when a neighbour moved or the branch is behind |
| ReconcileSafety.LabelCallExactly | src/reconcile.ts:150-190 | the conflict label goes on exactly in apply mode for an unlabelled, unprotected conflict or refused update whose files could be read |
| ReconcileSafety.RecheckNeverFires | src/reconcile.ts:136-146 | the soak and confidence re-checks at the point of action always pass |
| ReconcileSafety.PassClaims | src/reconcile.ts:199-269 | every merge a pass reports was outside a dry run, soaked, sure and undisturbed |
| ReportContract.EnvelopeOnTheFacts | src/report-contract.ts:36-84 | a report is published in exactly this envelope, or refused for its first outcome that claims a merge in a dry run, too early, unsure or disturbed |
| ReportContract.HeaderExactly | src/report-contract.ts:64-75 | any envelope's header is refused for the first of nine facts that does not hold, and for nothing else |
| ReportContract.InvariantExactly | src/report-contract.ts:64-84 | an envelope passes exactly when all nine hold and each outcome may be published |
| ReportContract.EveryReportIsPublished | src/report-contract.ts:36-84 | every report a pass returns passes the envelope invariant |
| ReportContract.PublishedExactly | src/report-contract.ts:67-84 | an envelope is built exactly when every claimed merge is legitimate |
| Reconcile.ReconcilePull | src/reconcile.ts:100-196 | one turn issues exactly the specified calls in order and returns the specified outcome or rejection; `ReconcileTurns.TurnOnTheFacts` says which these are |
| Reconcile.EscalatePull | src/reconcile.ts:171-196 | files first, then label, then comment, each failure rejecting; the comment follows every label that was accepted (`ReconcileTurns.CommentCallExactly`) |
| Reconcile.ReconcileRepo | src/reconcile.ts:246-257 | the inner loop continues the pass pull request by pull request |
| Reconcile.Reconcile | src/reconcile.ts:199-269 | the pass visits all listed pull requests in order until one rejects, and counts them |
| Reconcile.RejectionStopsThePass | src/reconcile.ts:246-257 | nothing after a rejection has any effect |
| ReadinessFacts.EvaluationOnTheFacts | src/readiness.ts:48-160 | blocking gates, confidence and recommendation in terms of the raw reviews, checks, labels and states |
| ReadinessFacts.EvaluationThrows | src/readiness.ts:48-62 | the evaluation throws exactly for an unparseable creation time, or a deleted author once someone's last word approves |
| ReadinessFacts.GateExactly | src/readiness.ts:74-107 | each gate blocks exactly when its raw condition fails |
| Readiness.MergeRecommendedExactly | src/readiness.ts:48-137 | a merge is recommended exactly when every gate passes and no signal is missing |
| Readiness.IndependentApprovalExact | src/readiness.ts:52-64 | the map lookup is the same as: someone other than the author has an approval as last counting review |
| Readiness.LatestIsLast | src/readiness.ts:52-58 | the map holds each reviewer's last counting review |
| Readiness.InsertedCommentIgnored | src/readiness.ts:53-55 | inserting a review that does not count changes no evaluation |
| Readiness.SwappedReviewersIgnored | src/readiness.ts:52-58 | swapping adjacent reviews of different people changes no evaluation |
| Readiness.LatestByReviewer | src/readiness.ts:52-58 | the loop computes the last counting review of each reviewer |
| Readiness.Evaluate | src/readiness.ts:48-160 | the branches compute the specified evaluation |
| ReconcileTurns.MovedExactly | src/depgraph.ts:115-144 | a repository disturbs exactly when it is a direct dependency, a dependent or a dependent's dependent and was pushed strictly later |
| DepGraph.BuildGraph | src/depgraph.ts:115-128 | the tables hold exactly the edges between different repositories, both ways |
| DepGraph.DisturbanceSet | src/depgraph.ts:135-144 | exactly the dependencies, dependents and dependents of dependents, without the repository itself |
| DepGraph.DisturbedSince | src/reconcile.ts:87-98 | exactly those pushed strictly after the pull request moved |
| FleetPushReport.PassedOverInRun | scripts/push-fleet.sh:71-100 | a clone without origin, of a foreign owner, whose fetch failed or without commits, in this order, adds exactly one report line with that reason and no write and no change of its own |
| FleetPushReport.OnlyOursWrites | scripts/push-fleet.sh:71-158 | every write of a run belongs to an applied run and a clone that is ours, was fetched and has commits |
| FleetPushReport.OneThingIsSaid | scripts/push-fleet.sh:107-157 | only one action fits a branch |
| FleetPushReport.CloneReported | scripts/push-fleet.sh:71-158 | a clone is passed over with one line or has one line for each resolvable branch |
| FleetPushReport.CountersOnTheReport | scripts/push-fleet.sh:68-158 | each counter is the number of report lines with its actions |
| FleetPushReport.ConsideredExactly | scripts/push-fleet.sh:82 | the considered repositories are the clones with a remote that are ours |
| FleetPushReport.AncestorExactly | scripts/push-fleet.sh:133 | ancestry is a path of parents |
| FleetPushSafety.EveryWriteMovesForward | scripts/push-fleet.sh:102-158 | no push of any run deletes a branch, touches another, or moves its own anywhere but to a descendant; a dry run pushes nothing |
| FleetPushSafety.CountersBalance | scripts/push-fleet.sh:68-158 | every resolvable branch of every processed clone is in exactly one branch counter, every other clone in `skipped` |
| FleetPushSafety.OneRowPerBranch | scripts/push-fleet.sh:102-158 | a processed clone reports each resolvable branch exactly once, in order |
| FleetPushSafety.VerdictsAreExclusive | scripts/push-fleet.sh:129-157 | the classification is independent of the order of its tests |
| FleetPushSafety.AncestorTransitive | scripts/push-fleet.sh:133 | ancestry composes |
| FleetPushSafety.ProperAncestorIsShallower | scripts/push-fleet.sh:133-150 | histories have no cycles |
| FleetPushRuns.SecondRunPushesNothing | scripts/push-fleet.sh:82-158 | with one clone per remote, no outside change and no failure, a second run pushes, creates and fails nothing |
| FleetPushRuns.DryRunForecasts | scripts/push-fleet.sh:117-144 | with one clone per remote, no outside change and every push served, a dry run reports the totals of the live run |
| FleetPushRuns.Alone | scripts/push-fleet.sh:70-164 | with one clone per remote each clone's part of a run is what it would have been alone |
| FleetPushRecreation.RunCreatesExactly | scripts/push-fleet.sh:68-164 | whatever others do, a run creates a branch exactly when in some clone of that remote, at the branch's turn, the remote lacks it, the server does not refuse, and it was fetched with the tip properly ahead or neither fetched nor given an upstream |
| FleetPushRecreation.CloneCreatesExactly | scripts/push-fleet.sh:102-158 | the same for the branches of one clone |
| FleetPushRecreation.WhyABranchComesBack | scripts/push-fleet.sh:82-146 | a created branch that was fetched was deleted by others before its push; any other had no upstream |
| FleetPushRecreation.RaceExample | scripts/push-fleet.sh:133-146 | one such race, reported as pushed |
| FleetPushRecreation.CalmRunCreatesExactly | scripts/push-fleet.sh:82-146 | nobody writing after the fetch, a clone creates exactly its unrefused branches that were neither fetched nor given an upstream |
| FleetPushRecreation.CalmRunBringsBackExactly | scripts/push-fleet.sh:68-164 | nobody writing after the fetches, a run creates a branch exactly when one of its clones holds it like that |
| FleetPushRecreation.UpstreamsAfter | scripts/push-fleet.sh:112-122 | a run configures an upstream exactly for the branches it reports as newly pushed |
| FleetPushRecreation.SecondRunBringsBackExactly | scripts/push-fleet.sh:82-146 | a branch deleted between two runs comes back in the second exactly when it had no upstream before the first and the first did not report it as newly pushed |
| FleetPushRecreation.DeletedBranchComesBack | scripts/push-fleet.sh:107-146 | two runs in which that happens: fast-forwarded, deleted by others, created again |
| FleetPushRecreation.CalmPushesAreAcceptable | scripts/push-fleet.sh:102-158 | nobody else writing, the remote could accept every attempted push as it stands, before any answer |
| FleetPush.Sweep.Record | scripts/push-fleet.sh:47-47 | the counters always equal the totals of the report |
| FleetPush.Sweep.Push | scripts/push-fleet.sh:118-136 | a push without force lands only on an absent branch or as a fast-forward |
| FleetPush.Sweep.Send | scripts/push-fleet.sh:107-157 | the branch decision, its push and its report line |
| FleetPush.Sweep.Process | scripts/push-fleet.sh:71-158 | a clone is skipped for exactly one reason, the one `FleetPushReport.PassedOverInRun` states, or fetched and gone through |
| FleetPush.Sweep.Run | scripts/push-fleet.sh:68-164 | the sweep equals the specified outing over all clones, of which `FleetPushReport` says what is reported and written |
| AdmissionTexts.NonBlockingOnTheTexts | packages/core/src/admission.mjs:183-239 | on the raw texts: evidence does not block exactly when every job and step says completed and success, neutral or skipped, some step ran, and every supplied run says completed and success |
| AdmissionTexts.OutcomeOnTheTexts | packages/core/src/admission.mjs:162-219 | the outcome of any accepted evidence, from the texts of its jobs, its runs and itself |
| AdmissionTexts.ProductFailureOnTheTexts | packages/core/src/admission.mjs:119-220 | a product failure exactly when a completed job says failure, timed_out or stale and one of its steps ran |
| AdmissionTexts.RetryOnTheTexts | packages/core/src/admission.mjs:221-229 | the retry hint, from the texts of jobs and runs |
| AdmissionTexts.CountsOnTheTexts | packages/core/src/admission.mjs:190-191 | each kind is counted with the number of jobs whose texts give it |
| AdmissionTexts.JobOnTheTexts | packages/core/src/admission.mjs:54-158 | every verdict on a job, its flags and its step counts, from the raw fields |
| AdmissionTexts.RefusedOnTheTexts | packages/core/src/admission.mjs:183-203 | which type error is thrown: for the evidence, then its job list, then its first faulty job, then a run |
| AdmissionLaws.NonBlockingExactly | packages/core/src/admission.mjs:183-239 | not blocking exactly with at least one job, all jobs successful, some executed step, and every supplied run completed with success |
| AdmissionLaws.OrderIsIgnored | packages/core/src/admission.mjs:187-192 | acceptance, outcome, flags and counts are invariant under permutation of the jobs |
| AdmissionLaws.BlockingIsKeptByExtension | packages/core/src/admission.mjs:206-219 | any list with a non-success job blocks, whatever is around it |
| AdmissionLaws.RetryHintBlocks | packages/core/src/admission.mjs:220-229 | the retry hint implies blocking and no product failure |
| AdmissionLaws.CountsAddUp | packages/core/src/admission.mjs:190-191 | the counts sum to the number of jobs |
| AdmissionLaws.JobSucceedsExactly | packages/core/src/admission.mjs:83-106 | a job succeeds exactly with a passing conclusion, consistent steps, and an executed step unless skipped |
| AdmissionLaws.JobFailsExactly | packages/core/src/admission.mjs:119-128 | a job is an executed failure exactly with a failing conclusion and an executed step |
| AdmissionLaws.JobRetryableExactly | packages/core/src/admission.mjs:130-150 | a job carries the retry hint exactly as a completed startup failure without an executed step |
| AdmissionLaws.ProductFailureExactly | packages/core/src/admission.mjs:220 | a product failure is reported exactly when some job is one, whatever the runs say |
| AdmissionLaws.RefusedExactly | packages/core/src/admission.mjs:183-203 | evidence is refused exactly when some part of it is malformed |
| AdmissionLaws.WorstSucceeds | packages/core/src/admission.mjs:162-170 | the priority list yields success exactly when nothing else is present |
| Admission.ClassifyWorkflowEvidence | packages/core/src/admission.mjs:183-239 | the loops and reassignments compute the specified receipt or type error, which `AdmissionTexts` states on the raw texts |
| Admission.CountVerdicts | packages/core/src/admission.mjs:190-191 | the counting loop |
| Admission.CollectRuns | packages/core/src/admission.mjs:195-204 | the wrappers in order, then the evidence itself |
| Admission.PresentExactlyWhenCounted | packages/core/src/admission.mjs:206-208 | a kind is present exactly when its count is positive |
| FleetHardeningReport.FindingsExactly | scripts/lib/fleet-hardening-policy.mjs:44-105 | the validator reports every problem of every place of the document, the identity of the schema and every problem of every place of the schema, in document order, nothing twice and nothing else |
| FleetHardeningReport.PolicyExactly | scripts/lib/fleet-hardening-policy.mjs:4-105 | a pair without findings is the literal policy and a schema with the literal draft and identifier that accepts no other document |
| FleetHardeningReport.CanonicalOrder | scripts/lib/fleet-hardening-policy.mjs:38-40 | the names of the policy in the order they are visited |
| FleetHardeningReport.PropertiesSeenExactly | scripts/lib/fleet-hardening-policy.mjs:80-90 | properties are the members of an object or the items of an array by number |
| FleetHardeningLaws.FleetPolicyIsPinned | scripts/lib/fleet-hardening-policy.mjs:93-105 | no findings imply the canonical policy and a schema that accepts no other document; such a pair exists |
| FleetHardeningLaws.PinnedPair | scripts/lib/fleet-hardening-policy.mjs:44-105 | the same for every tree of objects and scalars, with the exact condition for accepting the document |
| FleetHardeningLaws.CanonicalPairPasses | scripts/lib/fleet-hardening-policy.mjs:44-105 | conversely a tree and its const-only schema have no findings, and that schema accepts it |
| FleetHardeningLaws.NoFindingExactly | scripts/lib/fleet-hardening-policy.mjs:44-64 | no finding about the document exactly when it is the expected one |
| FleetHardeningLaws.SchemaPins | scripts/lib/fleet-hardening-policy.mjs:66-91 | a schema node without findings accepts at most the expected document |
| FleetHardeningLaws.AcceptsExactly | scripts/lib/fleet-hardening-policy.mjs:66-91 | it accepts that document exactly when the keywords the validator does not read are consistent with it |
| FleetHardeningLaws.CleanPairMayAcceptNothing | scripts/lib/fleet-hardening-policy.mjs:66-105 | for every tree of objects a full pair without findings whose schema accepts no document |
| FleetHardeningLaws.CanonicalPairMayAcceptNothing | scripts/lib/fleet-hardening-policy.mjs:66-105 | such a pair for the canonical policy |
| FleetHardening.Findings.ValidateExactValue | scripts/lib/fleet-hardening-policy.mjs:44-64 | the recursion pushes exactly the specified findings |
| FleetHardening.Findings.ValidateSchemaNode | scripts/lib/fleet-hardening-policy.mjs:66-91 | the recursion pushes exactly the specified findings |
| FleetHardening.ValidateDocuments | scripts/lib/fleet-hardening-policy.mjs:93-105 | document, draft, identifier and schema findings, in this order; `FleetHardeningReport.FindingsExactly` says which |
| MergeReaperSafety.FreshChecksPassed | apps/reaper/src/main.mjs:394-430 | supporting fact: a merge needs a full fresh inspection that passed and a merge call that succeeded |
| ReconcileSafety.CommentFollowsLabel | src/reconcile.ts:184-190 | supporting fact: a comment is attempted only on an unlabelled pull request after the label went on |
| ReconcileSafety.FailedExactly | src/reconcile.ts:135-169 | supporting fact: an outcome is `failed` exactly when the merge or update call it issued threw |
| ReconcileSafety.RejectedExactly | src/reconcile.ts:135-196 | supporting fact: the turn rejects exactly on unreadable evidence or a failure inside `escalate`, which the `catch` does not see |
| ReconcileSafety.RoundingKeepsTheFloor | src/reconcile.ts:131 | supporting fact: rounding the hours to hundredths never takes them below the floor |
| ReportContract.AssembledHeaderPasses | src/report-contract.ts:36-76 | supporting fact: the assembled constants pass their own checks, the pinned revision and the threshold in parts per million included |
| Readiness.ProductClearsOnlyWhenComplete | src/readiness.ts:114-128 | supporting fact: no product with a missing signal clears the exclusive threshold |
| FleetPushSafety.PushesAreWarranted | scripts/push-fleet.sh:107-157 | supporting fact: a push is attempted exactly for a new or ahead branch, and one reported as pushed stands at its local tip |
| FleetHardeningLaws.CleanSchemaMayAcceptNothing | scripts/lib/fleet-hardening-policy.mjs:66-72 | supporting fact: at a scalar the validator reads no `type` beside the `const`, so a node without findings may accept no document |
| ReadinessFacts.ThresholdExactly | src/readiness.ts:44-46 | supporting fact: the threshold is exclusive for every confidence |
| MergeReaper.StatesExactly | apps/reaper/src/main.mjs:194-223 | supporting fact: a dependency inside the batch reads as that candidate's current evaluation, any other as GitHub answers |
| ReconcileSafety.UpdateRecommendedExactly | src/readiness.ts:133-151 | supporting fact: exactly when the evaluation recommends an update |
| FleetPushReport.BranchReported | scripts/push-fleet.sh:102-157 | supporting fact: each resolvable branch gets one line that says what it is, and moves the remote exactly when it is pushed, not refused and a fast-forward |
| FleetPushRecreation.CreatesExactly | scripts/push-fleet.sh:107-146 | supporting fact: a push creates its branch exactly when the remote as it stands lacks it, the server does not refuse, and it was fetched with the tip properly ahead or neither fetched nor given an upstream; no other branch appears or disappears |
| FleetPushRecreation.RecreationNeedsARace | scripts/push-fleet.sh:107-146 | supporting fact: with a configured upstream a branch is created exactly when it was fetched, is ahead, is gone from the remote by its push, and the push is not refused |
| FleetPushRecreation.RaceRecreates | scripts/push-fleet.sh:133-146 | supporting fact: every such race creates it, at the local tip |

## Left out

- GitHub transport, pagination, tokens, files, git processes, SQLite, HTTP, logging and metrics: their answers are parameters; logging and metrics calls are taken not to throw.
- WorkerPool.Supervisor.Acknowledge: an acknowledgement and the following claim run in one section in the source; the model lets other sections come between, which only adds runs. A thrown loop error stays pending (`Failed`) until its `catch` one microtask later.
- MergeReaper.Reap: repository discovery and inspection are an input; the evaluation of everything but dependencies is one flag per inspection, GitHub's answer for one key is fixed during one pass, candidate keys are unique and a candidate does not depend on itself, as the source filters, and the maximum is any number where the source insists on one to three.
- MergeOrder.OrderMergeCandidates: the sorted `ready` list is a set of which the least is taken; keys are numbered in comparison order; repository names are already normalised.
- Reconcile.Reconcile: listing organisations, reading manifests into edges, dossier text, reasons, titles and timestamps of the report.
- Readiness.Evaluate: gate details and reason strings; case folding of hold labels is the ASCII one the expression performs.
- DotenvRoundTrip.PrivateKeyRoundTrip: decoding of keys stored with the base64 prefix.
- AgentTagsRoundTrip.ParsingIsClosed: mapping of marker families to providers for incoming requests, and labels.
- FleetPush.Sweep.Run: pushing tags, finding clones on disk, commit counts in messages; local branches do not move during a run and the fetch refspec is the default one.
- Admission.ClassifyWorkflowEvidence: parsing of timestamps and runner fields (a step carries whether a time was observed, a job whether a runner was assigned) and reason strings; strings are taken without surrogate pairs.
- FleetHardening.ValidateDocuments: keywords the validator does not inspect, message texts, and names inherited from the prototype of a missing member, which only add findings where there already is one.
- TOML, `.gitmodules` and URL parsing, time zones, the command line, manifests, and the conformance runner.
