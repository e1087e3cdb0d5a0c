# Dafny model of WorldBisect's proof engine and hub protocols

WorldBisect compares a world in which a command passes with one in which it fails, and searches for a
smallest set of differences that explains the failure. Its hub keeps an audit log, a ledger of used CI tokens
and rate limits; its local service keeps a job queue; a script backs the hub up and restores it. This
project models the parts of that code whose correctness rests on several functions acting together, and
proves what they promise over all inputs and all runs. `dafny verify dfyconfig.toml` checks everything.

Each module is one file. Operations that change state are methods of a class or loops, each proved equal to
a specification function of the old state and the inputs; the theorems are about those functions and
about runs made of them. What the functions themselves say is stated a second time without them, with every constant
written out: as exact conditions (`ReservedIff`, `LoadedIff`, `BackupSucceedsIff`), as contents (`MaterializeWritesExactly`)
or as properties of runs (`BurstIsThirty`, `RenewedJobIsKept`). Hashes, the encoding of JSON, the clock and the outcome of running a command are
function-valued or plain parameters; injectivity of a hash is assumed only where a statement names it.

| Part | Modules |
|---|---|
| Causal proof engine | `Ordering`, `Sequences`, `DeltaDebugging`, `DecidedSearch`, `FileTree`, `WorldDiff`, `Interventions`, `DirectoryFactors`, `ExperimentCache`, `Engine`, `Evidence`, `RunRecords`, `Causality`, `Judgement`, `Repetitions` |
| Hub audit log | `AuditChain`, `AuditStore`, `AuditSteps`, `AuditLog`, `AuditRecovery`, `AuditRetention`, `AuditRuns` |
| Leased job queue | `JobStore`, `JobProtocol`, `JobGuarantees`, `JobLeases`, `JobKeys` |
| CI replay ledger and restore | `ReplayLedger`, `ReplayProtocol`, `ReplayReloads` |
| Rate limiter, backup | `RateLimiter`, `LimiterReloads`, `Backup`, `BackupLimits`, `BackupRestore` |

How the parts are modelled:

* A workspace is a map from slash-separated paths to nodes (file, directory or link, with permission bits,
  content or target); the environment is a map. Running a command is a function of the run's number and of
  everything the run is given, so runs may be flaky, time out, be cancelled or give no result. Only
  `Causality`, `Judgement` and, where it speaks of a truthful cache, `Repetitions` assume that the world decides the
  verdict, and say so in each `requires`.
* The audit disk is a map from file names to contents on which every operation draws its fate: it
  succeeds, or fails with none, part or all of its effect done; a count of the failed ones lets the contracts say that
  nothing else makes a call fail. A crash is a failing operation after which
  nothing else happens, so the states covered by the failure postconditions include every crash point.
* The job queue and the token protocol are state machines whose steps come in any order. Operations that
  the source performs under one mutex are one step. Heartbeats and requests in flight may be arbitrarily late.
* Times are integers (nanoseconds or Unix seconds, with the source's truncations) except in the rate limiter,
  which uses reals.

## Where the code departs from its documentation

The model follows the code; the lemma named shows each point, with the exact condition.

* `docs/determinism.md:35` says a result is cached only after the outcome has been fully observed. A run that
  was cut short by cancellation has a process result and is cached like any other; time-outs and missing
  results are not (`Repetitions.UnobservedIsStoredIff`). Nothing else can spoil a truthful cache
  (`Repetitions.OnlyCancellationSpoilsTheCache`).
* `docs/determinism.md:20` asks for stable outcomes across repetitions. After the first repetition has been
  stored, the others read it back from the cache: a series starts a process for every record if and only if no
  outcome but the last passes the guards of the cache (`Repetitions.SeriesIsRealIff`).
* Delta debugging never tests its whole input (`DeltaDebugging.OnlyProperListsAreTested`), so a PROVEN analysis
  holds a forward run of its causal set if and only if that is not the set of all factors
  (`RunRecords.ForwardRunIff`). Otherwise the good baseline stands in for it.
* Factors are applied in the order of their hashed names and a directory is replaced with all that is below
  it, so the whole set of factors need not restore the good world. `DirectoryFactors.AllFactorsRestoreIff` decides
  it from the captures and the factor list; `DirectoryFactors.ModeChangeLosesTheFile` is the smallest failure.
* `docs/architecture.md:170` says that idempotency prevents duplicate accepted mutations. A creation whose record
  was not written, or cannot be read later, is duplicated by a retry; `JobKeys.RetryDuplicatesExactly` gives the
  condition over the faults of both.
* A token is checked for expiry before, but not in, the ledger: a second request that stalls past the expiry is
  let through (`ReplayProtocol.StalledRequestIsUsedAgain`, `ReplayReloads.StallFromTheStart`). Restoring a snapshot
  taken without publishers sets no pause, and a reload can drop one; `ReplayReloads.ReloadReopensIff` says which
  reloads let a live token in again.
* Requests are authenticated and charged in two steps, so a reload in between can leave more keys in the rate
  limiter than are configured, up to its eviction limit (`LimiterReloads.OneReloadEvictsIff`).
* A file name with a backslash is archived but refused on restore (`BackupRestore.RoundTrip`).

## Model

| member | source | states |
|---|---|---|
| `DeltaDebugging.SplitIsPartition` | internal/experiment/ddmin.go:70-88 | for every n the chunks are non-empty pieces that concatenate to the list, as many as n or the length allows; with n at least the length they are single items |
| `DeltaDebugging.SubtractOne` | internal/experiment/ddmin.go:90-104 | removing one item of a list of distinct items removes exactly its position |
| `DeltaDebugging.Split` | internal/experiment/ddmin.go:70-88 | the loop computes that partition |
| `DeltaDebugging.SubtractItems` | internal/experiment/ddmin.go:90-104 | the loop that decrements counts computes the multiset difference, keeping the order |
| `DeltaDebugging.DDMin` | internal/experiment/ddmin.go:7-68 | the nested loops with their early exits, calls to the test included, compute the specified search; the count returned is the number of calls made |
| `DeltaDebugging.SearchObeysLaw` | internal/experiment/ddmin.go:7-68 | for any test and any granularity: calls only grow and stay within the budget, the result is a sub-list that is the input or was tested last-accepted with a passing verdict, and an error-free result was shown one-minimal after it was adopted |
| `DeltaDebugging.MinimizeLaw` | internal/experiment/ddmin.go:7-68 | the same for the whole search, with no assumption that the test is deterministic |
| `DeltaDebugging.MinimizeIsOneMinimal` | internal/experiment/ddmin.go:7-68 | a deterministic test that accepts the whole list: an error-free result passes and fails without any one of its items |
| `DeltaDebugging.OnlyProperListsAreTested` | internal/experiment/ddmin.go:7-68 | for any test, neither the whole list nor the empty one is ever tested: every call is on a non-empty proper sub-list |
| `DeltaDebugging.SingleItemIsUntested` | internal/experiment/ddmin.go:14-14 | in particular a list of one item is returned without a single call |
| `DeltaDebugging.MinimizeCallBound` | internal/experiment/ddmin.go:7-68 | termination by the rank 2*length + limit - granularity: at most 6*length^2 calls, whatever the budget, and with a larger budget exhaustion cannot happen |
| `DeltaDebugging.MinimizeKeeps` | internal/experiment/ddmin.go:7-68 | whatever every test call keeps for sub-lists of the items, the whole search keeps |
| `DeltaDebugging.SingleCauseIsFoundFast` | internal/experiment/ddmin.go:7-68 | if one item decides, it is found alone among 2^k items in at most 2k calls |
| `DecidedSearch.MinimizeIsPure` | internal/experiment/ddmin.go:7-68 | a test whose answers do not depend on the closure's variables: the search is that of the answers alone |
| `DecidedSearch.PureSearchFinds` | internal/experiment/ddmin.go:7-68 | on the answers alone, errors included: the result is everything or a passing list, and an unstopped search has no smaller list that passes or errs |
| `FileTree.ApplyIsUpdate` | internal/workspace/workspace.go:180-223 | where all parents are directories and nothing lies below, applying an entry is a plain map update |
| `FileTree.ApplyIsUpdateOnlyWhenExposed` | internal/workspace/workspace.go:180-223 | and only there: otherwise it fails, adds parents or removes what lies below |
| `FileTree.GoneBelow` | internal/workspace/workspace.go:257-269 | a successful application leaves nothing below its path |
| `FileTree.MaterializeIsExact` | internal/workspace/workspace.go:159-178 | on an empty root, materializing succeeds exactly when every entry can be written, and then gives exactly the manifest's tree |
| `FileTree.MaterializeWritesExactly` | internal/workspace/workspace.go:159-178 | after a successful materialization each file has its blob as content and its mode modulo 512, each directory its mode, each link its target, and there is nothing else |
| `FileTree.ApplyWritesExactly` | internal/workspace/workspace.go:180-223 | after one successful application the path holds just that or nothing, missing parents are directories of mode 0755, what was below is gone and everything else is as before |
| `FileTree.ApplyFailsExactly` | internal/workspace/workspace.go:180-223 | an application fails exactly for an unsafe path, a link that leaves the workspace, a parent that is no directory, an unsupported kind or a missing blob |
| `FileTree.LinkTargetOkIff` | internal/workspace/workspace.go:245-255 | a link is accepted exactly if its target is relative, has no backslash and never leads up as many levels as the link's path has parts |
| `Backup.SafeIff` | internal/workspace/workspace.go:237-243 | the workspace paths accepted are exactly the plain names joined by slashes, without a backslash |
| `FileTree.MaterializeIgnoresOrder` | internal/workspace/workspace.go:159-178 | the listing order of the entries does not matter, for success or failure |
| `FileTree.Workspace.Apply` | internal/workspace/workspace.go:180-223 | the step-by-step program does what the specification says to the tree, on every error path too |
| `FileTree.Workspace.Materialize` | internal/workspace/workspace.go:159-178 | the loop over the depth-sorted entries computes the specified tree and failure |
| `WorldDiff.Compare` | internal/experiment/compare.go:10-89 | the program lists every eligible difference once in name order, truncates to the limit, and reports every exclusion and the truncation |
| `WorldDiff.CompareEnvironments` | internal/experiment/compare.go:10-89 | the loop over the keys yields exactly the eligible differing variables and a boundary for each hidden one |
| `WorldDiff.CompareWorkspaces` | internal/experiment/compare.go:10-89 | the loop over the paths yields exactly the supported differing entries and a boundary for each unsupported one |
| `Ordering.StringLessMeans` | internal/experiment/compare.go:100-107 | strings are sorted by the first position at which they differ |
| `WorldDiff.FactorsAreStrictlyOrdered` | internal/experiment/compare.go:83-83 | with collision-free names the factors are strictly ordered and all are genuine differences |
| `WorldDiff.FactorsAreComplete` | internal/experiment/compare.go:10-89 | the factors account for every difference if and only if the reported boundaries name no exclusion or truncation |
| `WorldDiff.EnvironmentFactorsMean` | internal/experiment/compare.go:14-41 | a variable is a factor, with its two values, exactly if they differ, neither is a redacted one and neither capture records it as a secret |
| `WorldDiff.WorkspaceFactorsMean` | internal/experiment/compare.go:43-73 | a path is a factor, with its two entries, exactly if they differ in more than their sizes and neither is of an unsupported kind |
| `WorldDiff.SecretBoundariesMean` | internal/experiment/compare.go:27-30 | a variable is reported as a differing secret exactly if its values differ and one of those reasons excludes it |
| `WorldDiff.BoundariesMean` | internal/experiment/compare.go:59-88 | each other boundary is reported exactly when it applies |
| `Interventions.SetupIsMixed` | internal/experiment/engine.go:247-273 | when no differing path is a directory, applying any factors in any order gives the base world with exactly those keys and paths taken from the other world |
| `Interventions.FactorsCommute` | internal/experiment/engine.go:247-273 | order and repetition of factors do not matter |
| `Interventions.ReverseIsForwardOfTheRest` | internal/experiment/engine.go:247-273 | breaking the good world with some factors is repairing the bad world with all the others |
| `Interventions.AllFactorsGiveTheGoodWorld` | internal/experiment/engine.go:247-273 | all factors turn the bad world into exactly the good one, and back |
| `DirectoryFactors.NodeAfterMore` | internal/workspace/workspace.go:180-223 | with any paths differing, directories included: what each path holds after some factors is fixed by the last factor at or above it and by what is written below it later |
| `DirectoryFactors.AllInStep` | internal/experiment/engine.go:247-273 | applying any list of factors fails exactly when one is applied below a non-directory, and otherwise leaves that tree and the mixed environment |
| `DirectoryFactors.AllFactorsRestoreIff` | internal/experiment/engine.go:247-273 | all factors together give the other world if and only if none is applied below a non-directory and every path of that world is untouched, written last, or remade as the plain directory it should be |
| `DirectoryFactors.DifferingDirectoryLosesItsContents` | internal/workspace/workspace.go:257-269 | so they never do with an unchanged file below a differing directory |
| `DirectoryFactors.ModeChangeLosesTheFile` | internal/workspace/workspace.go:257-269 | the smallest case, as two captures: one directory with a changed mode and one file in it |
| `ExperimentCache.SaveKeepsBoundAndEntry` | internal/store/experiment_cache.go:51-104 | after every successful save the cache is at most 64 MiB, the new entry can be loaded, and every survivor is untouched: the branch that removes the new entry is unreachable |
| `ExperimentCache.EvictionIsInOrder` | internal/store/experiment_cache.go:73-104 | whatever was evicted precedes in key order everything that survived |
| `ExperimentCache.SavedIff` | internal/store/experiment_cache.go:51-71 | an entry is saved exactly if its key is 64 hexadecimal digits and it has at most 64 MiB; otherwise nothing changes |
| `ExperimentCache.FoundIff` | internal/store/experiment_cache.go:26-46 | exactly a complete record under its own key of 64 hexadecimal digits is found; any other file under such a key is removed, and nothing else |
| `ExperimentCache.SaveEvictsOnlyAsNeeded` | internal/store/experiment_cache.go:73-104 | a save evicts nothing from a cache within 64 MiB, and otherwise the last file evicted was still needed to get there |
| `ExperimentCache.Cache.Load` | internal/store/experiment_cache.go:26-46 | loading finds usable entries and removes unusable ones |
| `ExperimentCache.Cache.Save` | internal/store/experiment_cache.go:51-71 | saving refuses bad keys and oversized entries and otherwise writes and prunes as specified |
| `ExperimentCache.Cache.Prune` | internal/store/experiment_cache.go:73-104 | the pruning loop over the total computes the specified eviction |
| `Engine.Analyzer.RunWorld` | internal/experiment/engine.go:229-312 | a run consults the cache, sets up the world, starts the command, records and stores the outcome as specified |
| `Engine.Analyzer.BuildWorld` | internal/experiment/engine.go:247-273 | building the base world and applying the selected factors one by one gives the specified setup or its failure |
| `Engine.Analyzer.Repeat` | internal/experiment/engine.go:195-227 | a series of repetitions stops at the first error or unexpected verdict |
| `Engine.Analyzer.VerifyMinimality` | internal/experiment/engine.go:314-335 | the loop over the one-smaller sets stops at the budget, at an error, or at a smaller set that suffices |
| `Engine.Analyzer.Conclude` | internal/experiment/engine.go:146-191 | the end of an analysis: budget for the reverse run, reverse series, minimality, status |
| `Engine.Analyzer.SearchPhase` | internal/experiment/engine.go:119-191 | the search over the factors with its budget and its error messages, then the conclusion |
| `Engine.Analyzer.AnalyzeFactors` | internal/experiment/engine.go:88-193 | baselines, the empty difference, search and conclusion in order, on every path |
| `Engine.Analyzer.Analyze` | internal/experiment/engine.go:57-193 | a request without captures changes nothing; otherwise the result is that of comparing them and analysing the factors, with the bad command for a missing one and 3 repetitions, 128 experiments, 512 factors and 8 MiB of output for limits that are not positive |
| `Engine.AnalysisKeepsTerms` | internal/experiment/engine.go:57-193 | no path through an analysis alters the captures, factors, boundaries, repetitions and budget it reports |
| `Evidence.SeriesLaw` | internal/experiment/engine.go:195-227 | a steady series is as many consecutive records of its own plan, all with the expected verdict |
| `Evidence.MinimalityLaw` | internal/experiment/engine.go:314-335 | a set found minimal has a failing run for each non-empty one-smaller set, and the total stays within the stated bound |
| `Evidence.ConclusionLaw` | internal/experiment/engine.go:146-191 | a proven conclusion shows its reverse runs within the budget and its minimality runs |
| `Evidence.SearchPhaseLaw` | internal/experiment/engine.go:119-191 | a search that found a smaller set leaves its passing runs in the record |
| `Evidence.ProvenHasCertificate` | internal/experiment/engine.go:57-193 | for every invariant and every notion of a fitting record that single runs respect: a PROVEN analysis records R passing good and R failing bad baselines, R failing reverse runs of exactly the causal set, a failing run for each one-smaller set, R passing forward runs unless the set is everything, in at most 2M+R-(arguments)-1 experiments |
| `RunRecords.ProvenIsCertified` | internal/experiment/engine.go:57-193 | that certificate for every PROVEN analysis with nothing assumed of the runs or the cache: records name their base world, source world and factors |
| `RunRecords.ProvenIsCertifiedByKind` | internal/experiment/engine.go:57-193 | and are baselines or interventions as they should, if keys keep the two apart and the cache began that way |
| `RunRecords.RecordTells` | internal/experiment/engine.go:229-312 | for any run: a record from the cache is marked and starts no process; any other tells the verdict and time-out of the one process started, or its error, and a failed setup starts none |
| `RunRecords.AllFactorsAreNeverRun` | internal/experiment/engine.go:57-193 | no analysis, however it ends, ever runs the bad world with all the factors |
| `RunRecords.ForwardRunIff` | internal/experiment/engine.go:57-193 | a PROVEN analysis holds a forward run of the set it names if and only if that set is not all the factors |
| `RunRecords.SingleFactorIsUntested` | internal/experiment/engine.go:119-145 | with one factor the search makes no run |
| `Causality.KeyDeterminesRun` | internal/experiment/cache.go:35-64 | equal cache keys mean the same tree, environment, command, timeout and oracle |
| `Causality.SaveKeepsCoherence` | internal/store/experiment_cache.go:51-71 | a save keeps the cache truthful if and only if what it stores is true |
| `Causality.CachedRunIsTrue` | internal/experiment/engine.go:229-312 | a run with a truthful cache gives the verdict or error of a run without one, and leaves the cache truthful |
| `Causality.AnalysisIsLawful` | internal/experiment/engine.go:57-193 | every plan an analysis can run keeps the cache truthful and yields true records |
| `Causality.CertifiedIsCause` | internal/experiment/engine.go:57-193 | the certificate makes its set a cause: the baselines stand in for the two interventions that are never run |
| `Causality.ProvenMeansCause` | internal/experiment/engine.go:57-193 | the product contract: an analysis that ends PROVEN names a set that repairs the bad world, whose complement does not, and no one-smaller part of which does |
| `Causality.InterventionStarts` | internal/experiment/engine.go:229-295 | a forward or reverse run starts the command with the base capture's timeout and oracle and the output limit, in the base world with exactly the selected variables and paths taken from the other |
| `Judgement.AnswersAreConsistent` | internal/experiment/engine.go:57-193 | for any runs: no limitation exactly if PROVEN, then and only then with all three verifications; no factors named if UNPROVEN; interrupted exactly if cancelled; "no differences" only for an empty list of factors |
| `Judgement.SeriesIsDecided` | internal/experiment/engine.go:195-227 | a decided series makes all its runs if the verdict is the expected one, and otherwise one |
| `Judgement.SearchIsDecided` | internal/experiment/engine.go:119-145 | with decided runs and a truthful cache the search is that of the verdicts alone, and its experiments are all repetitions of each passing candidate and one run of each other |
| `Judgement.AnalysisIsDecided` | internal/experiment/engine.go:57-193 | with decided runs, the limitation of an analysis, the status and the factors named are given, case by case, by the verdicts of the baselines, the search on the verdicts, the reverse verdict, and the budget |
| `Judgement.AmpleBudgetDecides` | internal/experiment/engine.go:57-193 | completeness: stable baselines, complete non-empty factors, a verdict for every set, 3R+6Rn^2 <= M and n plus the arguments <= M: the analysis names a set that repairs and no one-smaller part of which does, PROVEN if the complement does not repair and otherwise SUPPORTED |
| `Judgement.ExclusiveRepairIsProven` | internal/experiment/engine.go:57-193 | in particular PROVEN with a cause if no set repairs together with its complement |
| `Judgement.OneFactorIsProvenIff` | internal/experiment/engine.go:57-193 | one differing factor: PROVEN if and only if 3R <= M and the arguments are fewer than M, and the exact condition for every other ending |
| `Repetitions.RecordIsStoredIff` | internal/experiment/engine.go:276-312 | after a run a record is found if and only if the outcome came with a process result, did not time out, and key and size are accepted |
| `Repetitions.UnobservedIsStoredIff` | internal/experiment/engine.go:296-312 | an outcome that was not fully observed is stored if and only if it was cancelled with a process result and passes those guards |
| `Repetitions.CancelledVerdictIsCached` | internal/experiment/engine.go:296-312 | such a verdict is served to the next run |
| `Repetitions.OnlyCancellationSpoilsTheCache` | internal/experiment/engine.go:276-312 | any run that is not both cancelled and storable keeps a truthful cache truthful |
| `Repetitions.RepetitionsReuseTheFirst` | internal/experiment/engine.go:195-227 | once stored, the first outcome is every repetition's outcome and no process is started |
| `Repetitions.SecondRunIsRealIff` | internal/experiment/engine.go:229-312 | the second of two runs starts a process exactly when the first outcome does not pass the guards |
| `Repetitions.SeriesIsRealIff` | internal/experiment/engine.go:195-227 | a series starts a process for each of its records if and only if no outcome but the last passes the guards |
| `AuditChain.ChainConcat` | internal/hub/audit.go:344-365 | a chain followed by its continuation is a chain, and conversely |
| `AuditChain.ChainIff` | internal/hub/audit.go:270-371 | a chain is a list of entries numbered without gaps, each with the hash of the one before and its own, a time, at most 4096 bytes, and fields of at most 128 characters without line breaks or NUL |
| `AuditChain.SameHeadSameEntries` | internal/hub/audit.go:281-286 | under a collision-free hash two chains with the same last hash agree entry by entry, counted from the end |
| `AuditStore.SegmentsChain` | internal/hub/audit.go:335-371 | accepted segments form one chain from anchor to head with matching number and hash |
| `AuditStore.RepresentedOpens` | internal/hub/audit.go:306-401 | a directory that stands for a history is accepted, with its checkpoint and without its leftovers |
| `AuditStore.LoadedIff` | internal/hub/audit.go:306-401 | what is accepted, in numbers: version 1, at most 16 segments of at most 256 KiB in order, one chain from anchor to head, at most 40 files and no unknown one |
| `AuditStore.ReopenIsIdentity` | internal/hub/audit.go:306-401 | opening changes nothing that matters, and nothing at all when there are no leftovers |
| `AuditStore.AcceptedIsChain` | internal/hub/audit.go:306-401 | what is accepted is a chain from its anchor to its head |
| `AuditStore.HeadPinsHistory` | internal/hub/audit.go:405-419 | two accepted directories with one head hash agree on every entry that both retain |
| `AuditStore.HeadAndAnchorPinEverything` | internal/hub/audit.go:405-419 | with the same anchor they retain identical entries |
| `AuditStore.AcceptedHeadIsGenuine` | internal/hub/audit.go:405-419 | a directory accepted with a genuine log's head retains that log's entries in their places |
| `AuditStore.AcceptedIsEndOfHistory` | internal/hub/audit.go:405-419 | it retains exactly the end of that log's history, if no two entries at hand collide |
| `AuditSteps.PruningTracks` | internal/hub/audit.go:221-232 | pruning drops whole segments from the front only: same history and head, later anchor, at most 16 segments, nothing expired in front |
| `AuditSteps.PruningIsExact` | internal/hub/audit.go:221-232 | pruning drops a segment exactly if more than 16 are left from it on or it is the first left and has expired, and the anchor moves past what is dropped |
| `AuditSteps.ExtendedExactly` | internal/hub/audit.go:183-213 | the checkpoint over one more entry, field by field, in a new segment or the last one |
| `AuditSteps.NewSegmentTracks` | internal/hub/audit.go:183-213 | a new segment with one entry continues the history |
| `AuditSteps.ExtendedSegmentTracks` | internal/hub/audit.go:183-213 | one more line in the last segment continues the history within the size limit |
| `AuditSteps.UncommittedSegmentIsRefused` | internal/hub/audit.go:376-399 | a segment file past the committed head makes the directory refused |
| `AuditSteps.TouchedSegmentIsRefused` | internal/hub/audit.go:335-371 | a torn or uncommitted line in the last segment makes the directory refused |
| `AuditSteps.RemovalKeeps` | internal/hub/audit.go:376-399 | removing a leftover keeps what the directory stands for |
| `AuditSteps.RenameCommits` | internal/hub/audit.go:233-245 | replacing the state file commits the checkpoint it holds |
| `AuditLog.AheadIsRefused` | internal/hub/audit.go:149-215 | whatever part of a line was written, a directory whose checkpoint is older is refused |
| `AuditLog.Disk.AtomicWriteState` | internal/hub/store.go:361-381 | at every failure the state file is the old or the new one, and at most one temporary file is left |
| `AuditLog.Log.Append` | internal/hub/audit.go:149-215 | it fails only if the log is closed or latched, the event is not acceptable or an operation on the disk fails; success commits exactly the old history and one entry; at every failure point the log is latched and the directory opens with the old or the next checkpoint, or is refused, and it is refused if and only if a segment is ahead of the old checkpoint |
| `AuditLog.Log.AppendEntry` | internal/hub/audit.go:163-215 | the same for the part that works on the disk, a failing look at the last segment included |
| `AuditLog.Log.WriteEntry` | internal/hub/audit.go:176-206 | a failing write leaves the directory as it was or ahead of its checkpoint, hence refused |
| `AuditLog.Log.Commit` | internal/hub/audit.go:233-245 | before the rename nothing but a temporary file is added; after it the directory stands for the new checkpoint, however many pruned files are left |
| `AuditLog.Log.PurgeExpired` | internal/hub/audit.go:246-268 | at every failure point the directory opens, with the checkpoint before or after, and never loses history |
| `AuditLog.Log.Close` | internal/hub/audit.go:117-128 | closing changes neither disk nor state |
| `AuditLog.Log.SetRetention` | internal/hub/audit.go:129-139 | changes the retention and nothing else |
| `AuditRecovery.ScanEntries` | internal/hub/audit.go:346-365 | the scan of a segment accepts exactly the chains |
| `AuditRecovery.VerifySegments` | internal/hub/audit.go:335-374 | the loop carrying sequence, hash and names seen accepts exactly the intact segment lists; its duplicate-name branch is never the reason |
| `AuditRecovery.Sweep` | internal/hub/audit.go:376-399 | removes only recognised leftovers and stops at the first file it does not know |
| `AuditRecovery.LoadAndVerify` | internal/hub/audit.go:306-401 | without a failing operation it decides exactly whether the directory is intact; whatever fails, the directory loads afterwards as it did before |
| `AuditRecovery.OpenDirectory` | internal/hub/audit.go:75-115 | without a failing operation it succeeds exactly when the retention is allowed and the directory is intact or empty; with one it still never opens anything else |
| `AuditRecovery.VerifyAudit` | internal/hub/audit.go:405-419 | without a failing operation it accepts exactly the intact directories with the expected head, and it never accepts others |
| `AuditRecovery.SameLoadRepresents` | internal/hub/audit.go:306-401 | a directory that loads like one that stands for a history stands for it too |
| `AuditRuns.Hub.Do` | internal/hub/audit.go:149-268 | each call, failing or not, keeps the directory standing for the recorded history or leaves it refused; without a failing operation it does what it was asked to |
| `AuditRuns.StaysStuck` | internal/hub/audit.go:306-401 | a refused directory stays refused however often it is opened |
| `AuditRuns.Live` | internal/hub/audit.go:75-268 | over any sequence of appends, purges, retention changes, closes, crashes and restarts with any disk failures: the directory stands for a genuine chain with every accepted event and its time in order, or is refused, and then some append was not accepted; if no operation fails, exactly the well-formed events of at most 4096 bytes that reach an open log are accepted |
| `AuditRetention.StartsIff` | internal/hub/audit.go:163-190 | a new segment starts exactly if there is none, the line would take the last one over 262144 bytes, or the last one has expired |
| `AuditRetention.EntryStaysRetained` | internal/hub/audit.go:149-268 | over any such life an entry once retained stays so as long as at every pruning its segment is among the last 16 and unexpired, the retention being the days last set, or seven |
| `AuditRetention.NewEntryIsRetained` | internal/hub/audit.go:149-215 | an append retains the entry it writes under the same condition |
| `AuditRuns.VerifyAgainstLife` | internal/hub/audit.go:405-419 | any directory that is verified against the head saved after such a life retains exactly the end of that life's history |
| `JobStore.Store.CreateJobIdempotent` | internal/store/store.go:201-247 | creation as specified on every path, including failing writes and an unreadable record |
| `JobStore.Store.ClaimNextJob` | internal/store/store.go:249-281 | the loop over the sorted files claims as specified; a failing audit entry leaves the job claimed but returns an error |
| `JobStore.Store.HeartbeatJob` | internal/store/store.go:283-299 | only the owner of a running job renews its lease, and only the lease |
| `JobStore.Store.CompleteJob` | internal/store/store.go:301-325 | only the owner of a running job finishes it, with a terminal state |
| `JobStore.Store.RequeueExpiredJobs` | internal/store/store.go:327-359 | the sweep releases records one by one until a write fails |
| `JobStore.ClaimTakesTheFirst` | internal/store/store.go:249-281 | a claim takes the first claimable record by file name and finds none exactly when there is none |
| `JobStore.RequeueReleasesTheExpired` | internal/store/store.go:327-359 | a complete sweep releases exactly the expired records, an incomplete one some of them, and neither touches any other |
| `JobProtocol.ChangeOf` | internal/jobs/manager.go:89-163 | every step of any party changes a record in one of five ways and removes none |
| `JobProtocol.StepKeepsInv` | internal/jobs/manager.go:89-163 | claims, heartbeats, completions, sweeps and restarts in any order keep the invariant that ties what workers believe to the records |
| `JobProtocol.InvAlways` | internal/jobs/manager.go:89-163 | it holds after every run |
| `JobGuarantees.AcceptedIsCurrent` | internal/store/store.go:301-325 | whenever a completion is accepted, the record's attempt is the one the worker claimed |
| `JobGuarantees.OwnerFencingSuffices` | internal/store/store.go:301-325 | a queue that also compared attempts would go through exactly the same states |
| `JobGuarantees.CurrentHolderIsUnique` | internal/jobs/manager.go:113-146 | at most one worker holds a job's current attempt |
| `JobGuarantees.TerminalIsForever` | internal/store/store.go:249-359 | a finished job keeps its whole record in every continuation |
| `JobGuarantees.ResultIsFromTheLastAttempt` | internal/jobs/manager.go:113-146 | a recorded result was reported by the execution of the record's last attempt |
| `JobGuarantees.HandledAtMostMaxTimes` | internal/jobs/manager.go:89-146 | no attempt is handled twice and a job is handled at most maxAttempts times, across restarts |
| `JobGuarantees.AtMostTwiceMaxMoves` | internal/store/store.go:249-359 | a ranking bounds every job to 2*maxAttempts changes of state or attempt |
| `JobGuarantees.QueuedIsClaimable` | internal/store/store.go:249-281 | an idle worker finds nothing only when nothing is queued |
| `JobGuarantees.ReaperFreesEveryExpiredJob` | internal/jobs/manager.go:148-163 | a complete sweep after the lease leaves no abandoned job running |
| `JobLeases.LeaseRunsFromTheLast` | internal/store/store.go:249-299 | after every run the lease of a running job ends one lease after its last claim or heartbeat |
| `JobLeases.ReaperRespectsTheLease` | internal/store/store.go:327-359 | so a sweep before that moment leaves it unchanged, and a complete one at or after it releases it |
| `JobLeases.RenewedJobIsKept` | internal/jobs/manager.go:113-163 | a worker whose heartbeats come at most one lease apart never loses its job, whatever others do |
| `JobLeases.JobStaysItself` | internal/store/store.go:201-359 | no step changes what a job was created with |
| `JobLeases.ClaimIsRecorded` | internal/store/store.go:249-281 | a claim that succeeds in a reachable state: the record in full |
| `JobLeases.CompletionIsRecorded` | internal/store/store.go:301-325 | a completion by the holder: the record in full |
| `JobLeases.ReleaseIsRecorded` | internal/store/store.go:327-359 | a release: back in the queue or failed, by the number of attempts, or unchanged |
| `JobKeys.AlwaysPaired` | internal/store/store.go:201-247 | after every run records and jobs correspond one to one |
| `JobKeys.AsManyJobsAsKeys` | internal/store/store.go:201-247 | as many jobs were ever created as there are keys |
| `JobKeys.ReplayAnswersTheFirstJob` | internal/store/store.go:201-247 | ever after, the same key and digest give that job and create nothing, another digest is a conflict and changes nothing |
| `JobKeys.FirstCreates` | internal/store/store.go:201-247 | a key used for the first time stores the requested job as it is, apart from its two times, under one new record |
| `JobKeys.DifferentKeysDifferentRecords` | internal/store/store.go:207-207 | different principals, routes or keys never share a record, if principals and routes hold no NUL |
| `JobKeys.NulConfusesKeys` | internal/store/store.go:207-207 | with a NUL in a principal two different ones do; the service passes a hash as principal and a constant as route, so this limits the store as a component and not the API |
| `JobKeys.RetryDuplicatesExactly` | internal/store/store.go:201-247 | two creations under one key, with any faults in either, leave two jobs if and only if each leaves its job and the second reads no record of the first, because there is none or because it is unreadable |
| `JobKeys.InterruptedCreationDuplicates` | internal/store/store.go:223-243 | for a retry without faults: exactly when the job was written, its record was not, and the job was not removed |
| `ReplayLedger.Replays.Consume` | internal/hub/oidc.go:322-373 | the loop over the ledger decides and writes as specified |
| `ReplayLedger.ScanMeans` | internal/hub/oidc.go:347-362 | the scan succeeds exactly when every record is valid and no live one matches |
| `ReplayLedger.ReservedIff` | internal/hub/oidc.go:322-373 | a token is reserved exactly if the file is absent or within 256 KiB and 1000 records, every record is well-formed and expires within 630 seconds, no live one is the token's, fewer than 1000 are live and fewer than 32 of the publisher, and the write succeeds |
| `ReplayLedger.EncodedIsSmall` | internal/hub/oidc.go:366-372 | an encoded record takes at most 187 bytes, so a full ledger stays under the size at which it would be refused |
| `ReplayLedger.ConsumeKeeps` | internal/hub/oidc.go:322-373 | what is written is accepted at every later time: distinct digests, at most 1000 records and 32 per publisher, expiries within 630 seconds; a token is refused as used exactly when a live record has its digest |
| `ReplayProtocol.StepKeepsInv` | internal/hub/oidc.go:475-497 | verification, rechecks, consumption, backups, restores and careful reloads keep every used, unexpired token out |
| `ReplayProtocol.TokensAreUsedOnce` | internal/hub/oidc.go:322-373 | over whole lives with restores of any snapshots, every use of a token but the first comes after its expiry |
| `ReplayProtocol.LedgerIsAlwaysAcceptable` | internal/hub/oidc.go:329-359 | at every point of such a life the ledger is readable and valid |
| `ReplayProtocol.NoTokenIsUsedEarly` | internal/hub/oidc.go:210-213 | over any life, careless reloads included, no token is let through more than 30 seconds before it was issued or becomes valid, and none issued for more than 600 seconds |
| `ReplayProtocol.RestorePauses` | scripts/hub-backup.py:285-316 | after a restore with publishers no token is let through for 660 seconds, nor before a later deadline of the snapshot, unless the configuration is loaded anew |
| `ReplayProtocol.ShortestSafePause` | scripts/hub-backup.py:285-316 | a pause is long enough if and only if it is at least 630 seconds |
| `ReplayProtocol.LongestLifetime` | internal/hub/oidc.go:210-213 | 630 seconds is what the lifetime checks allow, and it is attained |
| `ReplayProtocol.StalledRequestIsUsedAgain` | internal/hub/oidc.go:475-497 | two requests past the checks are both let through when the second reaches the ledger after the expiry |
| `ReplayProtocol.CarelessReloadReusesTokens` | scripts/hub-backup.py:285-316 | one run in full: use, restore of an older snapshot, a reload without a deadline, and the same live token once more |
| `ReplayReloads.StallFromTheStart` | internal/hub/oidc.go:475-497 | an ordinary life from a fresh start gets there |
| `ReplayReloads.HonoursIff` | scripts/hub-backup.py:285-316 | a reloaded policy keeps out every token verified before a restore if and only if it is disabled or its pause lasts until all of them have expired |
| `ReplayReloads.ReloadReopensIff` | internal/hub/oidc.go:475-497 | after a restore that forgot a use, some run under a reloaded policy uses the token again before it expires if and only if publishing is enabled and the pause ends before the token does |
| `RateLimiter.Limiter.Allow` | internal/hub/server.go:338-368 | one request refills, charges and decides as specified; a full table loses a least recently used bucket first |
| `RateLimiter.Limiter.Retain` | internal/hub/server.go:369-381 | keeps exactly the buckets of configured keys and of anonymous requests |
| `RateLimiter.NoRunEvicts` | internal/hub/server.go:338-381 | if only configured keys are charged, no run ever evicts a bucket |
| `RateLimiter.AdmittedWithinLevel` | internal/hub/server.go:338-381 | requests admitted for a key never exceed its level and half the elapsed seconds, whatever other keys and reloads do |
| `RateLimiter.WindowBound` | internal/hub/server.go:338-381 | in any window of any run at most 30 plus half a request per second are admitted for a key that stays configured |
| `RateLimiter.BurstIsThirty` | internal/hub/server.go:338-368 | from a key without a bucket n requests at one instant admit exactly min(n, 30) |
| `RateLimiter.RefusedOnlyAfterThirty` | internal/hub/server.go:338-381 | a refusal comes only after 30 plus half the elapsed seconds, rounded down, have been admitted since the bucket was last full |
| `RateLimiter.EvictionIsHarmless` | internal/hub/server.go:343-353 | evicting a least recently used bucket gives no key a token as long as some key has been idle for a minute |
| `RateLimiter.PatientRequestsAreAdmitted` | internal/hub/server.go:338-381 | after any run, a request two seconds later is admitted: no key is ever locked out |
| `LimiterReloads.EvictsBeforeReloadIff` | internal/hub/server.go:113-130 | with authentication and charging as two steps: before the next reload some run evicts if and only if the configured keys and the stale ones, with a bucket or a request on the way, exceed 128 |
| `LimiterReloads.OneReloadEvictsIff` | internal/hub/server.go:65-85 | from the empty limiter, one reload can lead to an eviction if and only if old keys, new keys and the anonymous key are more than 128 together |
| `LimiterReloads.KeyRotationEvicts` | internal/hub/server.go:65-85 | replacing 100 keys by 100 others is such a reload |
| `Backup.Collector.Collect` | scripts/hub-backup.py:99-137 | the recursive walk with its shrinking limits collects as specified or fails |
| `Backup.SplitOfJoin` | scripts/hub-backup.py:214-221 | splitting a joined path gives its parts back |
| `Backup.CollectIsListed` | scripts/hub-backup.py:99-137 | what is collected is exactly the regular files below, each paid for in the limits, with plain names and limited depth |
| `Backup.ListedIsApart` | scripts/hub-backup.py:99-137 | no collected path is a prefix of another |
| `Backup.BackupHoldsEverything` | scripts/hub-backup.py:167-211 | a successful backup holds the configuration and both trees, within the limits the reader applies |
| `BackupLimits.EverythingIff` | scripts/hub-backup.py:99-137 | that is the configuration and exactly the regular files of the two trees but the lock at the root of each |
| `BackupLimits.BackupSucceedsIff` | scripts/hub-backup.py:99-211 | a backup succeeds exactly if the configuration has at most 64 KiB, files at most 16 MiB, names are plain, directories at most three deep, nothing special is found, and the totals of bytes, files and names keep to the limits |
| `BackupRestore.ExtractVerified` | scripts/hub-backup.py:224-269 | the loop over the members accepts and restores as specified |
| `BackupRestore.NameOf` | scripts/hub-backup.py:214-221 | the name of an archived file is safe exactly when it has no backslash |
| `BackupRestore.ExtractsWhatIsStored` | scripts/hub-backup.py:224-269 | reading the members of a backup gives back its files, or refuses at a backslash |
| `BackupRestore.FilesAreTheStored` | scripts/hub-backup.py:224-269 | every stored file is among the restored ones with its own content, and nothing else is |
| `BackupRestore.AcceptedMatchesManifest` | scripts/hub-backup.py:224-269 | whoever made it, an accepted archive restores exactly the files of its manifest, within the limits |
| `BackupRestore.RestoredIsSafe` | scripts/hub-backup.py:214-269 | whoever made the archive, every restored file has at most 16 MiB and is the configuration or two to four plain names deep in one of the two trees |
| `BackupRestore.RoundTrip` | scripts/hub-backup.py:99-269 | a successful backup restored under the same limits gives back exactly its files if and only if no path has a backslash |

## Left out

* Process execution, tracing, signals, host observation, output buffering and oracle evaluation: a run is an arbitrary function of its request.
* `Scan` (internal/workspace/workspace.go:44-126): what it guarantees of a manifest, one entry per path and every parent listed as a directory, is the premise `WellFormed`.
* POSIX permission checks, ownership, umask, hard links, and symlinks as ancestors of a written path: such an ancestor counts as not being a directory.
* Encodings: JSON, tar, gzip, base64 and the signatures on tokens. Strings that differ only in invalid UTF-8, which JSON would confuse, are taken as different.
* Collisions of cache keys and of factor names: where a lemma requires them not to occur, it does so for all inputs. For audit entries it does so for the entries at hand.
* Failures of the temporary directory and of the files of the experiment cache, which the engine ignores or reports without a verdict.
* Progress events, timings, identifiers and messages of an analysis, and saving it: the order of the reported boundaries is not modelled either, they form a set.
* Audit log: file types and permissions, the 64 KiB limit on the state file, wrap-around of 64-bit sequence numbers, and directory entries lost although a sync was reported. An interrupted first initialization is modelled only in that a directory with files but no checkpoint is refused.
* Job queue: unreadable job files, migrations, the audit entries and traces written beside the records, handlers themselves, and two processes on one store.
* CI publishing: signing keys, publisher matching, audience and workflow claims, request limits and the report store; a clock that goes backwards.
* Rate limiter: rounding of floating-point tokens.
* Backup: encryption, publication of the archive, concurrent modification of files, the name length limit of the tar format, empty directories, and a manifest whose text is the JSON value null.
* Report rendering, redaction, capture bundles, HTTP routing, dashboards, command-line parsing and the single-file audit chain of the local store: easier than what is modelled.
- Causality.ProvenMeansCause: requires that no differing path is a directory, because the failing complement is read off the reverse runs, which needs the two directions to mirror each other path by path; when the whole set restores a world with differing directories is `DirectoryFactors.AllFactorsRestoreIff`. Quantifies over uncancelled runs, because a cancelled run counts as a verdict.
- Causality.KeyDeterminesRun: requires equal output limits, because the key leaves them out and a truncated output can change a verdict.
- Evidence.ProvenHasCertificate: is stated over laws of single runs; `RunRecords.ProvenIsCertified` needs none and `Causality.AnalysisIsLawful` supplies those of runs decided by their world.
- Judgement.AmpleBudgetDecides: states a budget that suffices, not the least one, which depends on the calls of the search; `Judgement.AnalysisIsDecided` gives the exact condition in terms of these.
- JobKeys.FirstCreates: requires that the new job's identifier is not in use, because the source draws it at random.
- AuditStore.HeadAndAnchorPinEverything: requires both directories to retain something, because a chain that returns to its anchor hash is not excluded by the absence of collisions alone.
- AuditRuns.Live: leaves out the first creation of the directory; `AuditRecovery.InitialOpens` gives its starting point.
- ReplayProtocol.TokensAreUsedOnce: requires reloads to honour a pause that is called for, which `ReplayReloads.ReloadReopensIff` shows to be needed; and speaks of all uses but the first as late rather than impossible, which `ReplayProtocol.StalledRequestIsUsedAgain` shows to be all that holds.
- ReplayReloads.ReloadReopensIff: requires the restored ledger to have room for one more record, because a full one refuses everything.
- RateLimiter.NoRunEvicts: takes authentication and charging as one step, which the code does not; `LimiterReloads.EvictsBeforeReloadIff` takes them as two.
- Backup.CollectIsListed: a directory lists its entries in name order, as the source's sort puts them; the order in which the system returns them is not modelled.
