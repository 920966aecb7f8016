# Verified model of the store's deploy protocol, measurement inference and import arithmetic

This project models, in Dafny 4.11, the parts of the repository where a hard invariant lives in the code,
and proves it for every input, run or reachable state. `dafny verify dfyconfig.toml` checks all of it.

| file | models |
|---|---|
| `KvRetention.dfy`, `DeployUpload.dfy`, `DeployRuns.dfy`, `LateFinish.dfy` | retention by role; one deploy's calls on the shared namespace (a class); any number of deploys interleaved step by step; the run that loses a live family |
| `ReleaseBatches.dfy`, `CutRules.dfy` | the hidden batch boundaries of a date, and the batch numbers made from them; the rules whose one solution the boundaries are |
| `PrintTiers.dfy` | the tiers a measured sequence proves |
| `IsLists.dfy`, `RelatedList.dfy` | the entry tables of a list of printings and of `is:related`, and the check that they are exact |
| `ArtReps.dfy` | one set's tokens, and the reader that answers from them |
| `ImportLines.dfy` | the resumable line scanner, and the second chunked splitter |
| `ImportBudget.dfy` | pacing, the cache-codec gate, the pool shard cap |
| `ImportPurge.dfy` | purge slices and the alarms that run them (a class over the staging rows) |
| `BlobCodec.dfy` | staged blobs: framing, packing, the incremental packer (a class over byte arrays) |
| `ProjectConfig.dfy`, `ParitySweep.dfy`, `LiveParity.dfy`, `DiffsExact.dfy` | the comment stripper, the CSV cell splitter, the structural diff, and which diffs it reports |
| `Bytes.dfy`, `Sequences.dfy`, `CodeOrder.dfy`, `Decimal.dfy`, `Wrappers.dfy` | bytes, joined sequences, string order and sorting, decimal numerals, an option type |

Code that works by changing things is written that way: a class with the source's fields, or a method with
the source's loops, proved equal to a specification function; the theorems are lemmas about that function.

## Findings

Where a claim turned out not to hold of the code on every input, the model keeps the code, gives the input,
and proves exactly when the claim holds.

- **Deploy safety.** "Every key of every family a live manifest names is in the store" can be lost in one
  interleaving: while the legacy mirror holds another format, deploy 10 publishes the new format, deploy 11
  of the same format publishes and finishes, and only then deploy 10 finishes. Its sweep puts its own
  manifest in the place of deploy 11's, so the family the format's readers load has no role and goes
  (`LateFinishLosesALiveFamily`). `RunSafeExactly`: a run from a safe state stays safe throughout if and only
  if every finish meets `FinishGuard`, a question about the manifests, the lease and the rollback that a
  deploy could ask before its sweep. `HeldRunSafe`: it is enough that a deploy still holds its lease when it
  finishes, the check it makes before its manifest; `OneFormatRunSafe`: with one archive format about,
  nothing need be asked.
- **Hidden cuts.** A pair separated by a cut found for another pair may be of one true batch
  (`SeparatedMayBeTogether`). `SeparatedExactly`: two sets of a run are of two batches, whatever the truth,
  if and only if some pair answered "later" has all the places that "same" answers leave open between the
  two; `TogetherExactly`: of one, if and only if "same" answers cover all between them; `BoundariesExactly`:
  the cuts are the true boundaries, whatever the truth, if and only if each cut is forced so and each other
  place so covered. A pair answered "later" may end without a cut (`LaterMayBeUncut`), but only where the
  answers contradict one another (`TruthExactly`, `UncontradictedSettles`), and exactly where the script warns
  (`SkipsExactly`).
- **Anchored tiers.** A plain core printing in the first run does not by itself prove the first run's tier
  (`AnchoredMayMislabel`). `ProvenExactly`: past the guards the rows prove every label if and only if there
  are three runs or the second holds, anywhere, a row that is never last; and then it labels every row whose tier
  they prove (`LabelledExactly`).
- **Tokens.** A whole number without neighbours that is listed twice is written `5..5` and not `5`, so the
  token list depends on repeats (`RepeatsCanMatter`); `SameTokensExactly` says exactly when it does not.
  The reader takes every written list unless a number of 2^32 or more has a neighbour or a repeat
  (`ParsesExactly`; `LargeRunPanics` is an input).
- **Codec gate.** A projection of zero while lz4 is on turns it off wherever it was in the dead band, and
  then the gate flaps for nothing (`ZeroProjectionsFlap`). `OneProjectionExactly`: a projection pays for the
  change it makes if and only if it is positive or finds lz4 off; `FlappingIsPaid`: over any projections,
  every change but one, and but two for each such switch-off, costs a dead band of movement.
- **Pacing.** The longest pause caps what a burst can be made to wait for. `ThroughputExactly`: every window
  of a run keeps to the ceiling if and only if every alarm's churn is at most what the ceiling moves in the
  alarm's own time and the longest pause, or the step's own pause if that is longer, and half a millisecond;
  2000 MiB at once is more than that (`CappedPauseOutrunsTheCeiling`).
- **Related list.** The `is:related` table is exact if and only if every row of the class that the search
  holds has an oracle id to name it by (`RelatedExact`; `NamelessRowStops` is an input).

## Model

| member | source | states |
|---|---|---|
| KvRetention.LiveManifestRoles | src/engine/kv-retention.ts:196-217 | the loop finds the newest format's manifest, own key before mirror, and the builds of all live manifests, whatever order they are listed in |
| KvRetention.PrimaryIs | src/engine/kv-retention.ts:196-217 | with one entry per key the primary does not depend on the listing order: any entry none sorts before is it |
| KvRetention.RolesKeepLive | src/engine/kv-retention.ts:540-560 | every live build and the in-flight one keep a role, and the rollback is never one of them |
| KvRetention.PlanKeepsLive | src/engine/kv-retention.ts:529-597 | whatever is planned and whatever the sizes, the keys of live and in-flight families stay and nothing is invented |
| KvRetention.SweepKeepsExactly | src/engine/kv-retention.ts:529-587 | a sweep with a manifest to judge by leaves, as they were listed, the keys of the live builds, the one in flight and the rollback, and no other |
| KvRetention.RollbackIs | src/engine/kv-retention.ts:138-154 | the rollback is what the newest format's manifest replaced, or the newest older listed build where it does not say, if neither live nor in flight and of three builds at most |
| KvRetention.BeginDecides | src/engine/kv-retention.ts:486-496 | go exactly where the family fits beside what a sweep leaves; drop the rollback exactly where it does not and the rollback's bytes make it fit |
| KvRetention.BeginKeepsExactly | src/engine/kv-retention.ts:588-597 | what a sweep leaves stays, but for the rollback's keys where that is what makes the family fit |
| KvRetention.GuardFits | src/engine/kv-retention.ts:486-496 | a family is let in if and only if what stays and the family fit the cap |
| DeployUpload.SweepLeaves | scripts/deploy-upload.ts:265-287 | a sweep leaves the keys of the builds live in its view, of the lease holder and of the rollback, and no other; without a manifest it leaves all |
| DeployUpload.BeginLeaves | scripts/deploy-upload.ts:161-231 | a begin leaves what a sweep then leaves, less the rollback only where the family fits no other way; it ends without the lease exactly where it fits neither way |
| DeployUpload.FinishKeepsReplaced | scripts/deploy-upload.ts:290-293 | the deploy that published the newest format keeps the family its manifest replaced, unless that makes a fourth |
| DeployUpload.CommitRecords | src/engine/kv-retention.ts:162-231 | a publish records the build its format's key named, or the newest manifest's; a build published again keeps what it had recorded; the mirror follows its own format |
| DeployUpload.EnsureServes | scripts/deploy-upload.ts:120-147 | after the copy a format that resolves has its own key, and no reader of any format resolves another manifest |
| DeployUpload.DeployStore.ReadPublishedManifests | scripts/deploy-upload.ts:101-118 | reads the mirror and every per-format manifest, one entry per key |
| DeployUpload.DeployStore.BeginDeployUpload | scripts/deploy-upload.ts:161-231 | takes the lease from any holder, deletes what has no role, asks the guard; a refusal releases; the whole new state |
| DeployUpload.DeployStore.ReleaseDeployLease | scripts/deploy-upload.ts:248-254 | the lease goes only while it names this build; nothing else changes |
| DeployUpload.DeployStore.WithOwnManifest | src/engine/kv-retention.ts:269-275 | the publisher's manifest stands for its own format's key, every other entry stays |
| DeployUpload.DeployStore.SweepGenerationsByRole | scripts/deploy-upload.ts:265-287 | the keys left are retention's for the roles read, and the number deleted is returned |
| DeployUpload.DeployStore.FinishDeployUpload | scripts/deploy-upload.ts:290-293 | releases, then sweeps with its own manifest standing in |
| DeployUpload.DeployStore.PublishManifest | scripts/seed-remote-kv.ts:387-424 | without the lease nothing is written; with it the format's key, and the mirror only if it follows, hold the manifest that names what it replaced |
| DeployUpload.DeployStore.EnsureFormatManifest | scripts/deploy-upload.ts:132-147 | copies a same-format mirror to an absent format key, and otherwise changes nothing |
| DeployRuns.StepKeepsInv | scripts/deploy-upload.ts:161-293 | every step keeps the invariant (live builds are known, a published deploy's format has its key, a lease holder's keys are all there), and every step but a finish keeps safety |
| DeployRuns.FinishExact | scripts/deploy-upload.ts:265-293 | from a safe state, a finish leaves the store safe if and only if what the format's key names is this build, or named by another key, or uploading, or the rollback, or has no keys |
| DeployRuns.GuardIsKept | scripts/deploy-upload.ts:265-287 | that question has the answer the sweep's own kept families give |
| DeployRuns.RunSafeExactly | scripts/seed-remote-kv.ts:255-434 | any run of begins, puts, commits, finishes, stray sweeps, expiries and format copies from a safe state is safe throughout if and only if it is guarded |
| DeployRuns.SafeThroughoutMeans | scripts/seed-remote-kv.ts:255-434 | safe throughout means safe after every prefix of the run |
| DeployRuns.HeldRunSafe | scripts/deploy-upload.ts:233-245 | every run in which each finishing deploy still holds its lease is safe throughout |
| DeployRuns.OneFormatRunSafe | scripts/seed-remote-kv.ts:255-434 | where the mirror and all deploys are of one format, every run is safe, with no guard |
| LateFinish.LateFinishLosesALiveFamily | scripts/deploy-upload.ts:290-293 | the unguarded interleaving, from a safe start: the family that format-2 readers resolve has lost its key |
| DeployRuns.LostLeaseNeverPublishes | scripts/seed-remote-kv.ts:401-409 | over any run, a deploy whose lease was taken, released or expired never comes to be named by a manifest |
| DeployRuns.ResolvedIsComplete | src/engine/store-kv.ts:3120-3149 | in a safe state the manifest a reader of any format resolves names a family that is all there |
| DeployRuns.ResolveMovesOnlyByOwnCommit | src/engine/store-kv.ts:290-298 | what a reader of a format resolves is changed by no step but a commit of that format |
| DeployRuns.NoDarkWindow | scripts/deploy-upload.ts:120-147 | over any run without a deploy of the format, its readers resolve the same manifest throughout |
| ReleaseBatches.Ask | scripts/generate-release-batches.ts:178-184 | refuses a listing in which a set comes back, and else gives the sets once each in order |
| ReleaseBatches.HiddenCuts | scripts/generate-release-batches.ts:222-255 | the nested loops compute the cuts of the specification, run by run, narrow pairs first, and warn exactly where it gets stuck |
| ReleaseBatches.AskOne | scripts/generate-release-batches.ts:235-249 | one pair: asked only when not settled, and a boundary goes as late as the same-batch pairs allow |
| CutRules.HiddenSolves | scripts/generate-release-batches.ts:222-255 | what is found is the one solution of rules that say for each pair, from the cuts and proven pairs of earlier ones alone, whether it is proven or owns a cut, and where |
| CutRules.RulesHaveOneSolution | scripts/generate-release-batches.ts:222-255 | two solutions of the rules are the same cuts, proven pairs and owners |
| CutRules.EachCutIsNeeded | scripts/generate-release-batches.ts:235-249 | each cut has a pair of its own: answered later, no earlier pair's cut inside it, the cut at its last place that earlier proven pairs leave open |
| CutRules.SkipsExactly | scripts/generate-release-batches.ts:246-249 | the script warns if and only if some pair answered later ends with no cut between |
| ReleaseBatches.HiddenFacts | scripts/generate-release-batches.ts:222-255 | for any answers: no cut inside a pair answered same, every cut at an ascent of a run, every card-sharing pair answered is settled |
| ReleaseBatches.LaterExactly | scripts/generate-release-batches.ts:240-249 | a pair answered later ends with a cut between if and only if proven same-batch pairs do not cover every place |
| ReleaseBatches.SameExactly | scripts/generate-release-batches.ts:242-245 | a pair that would be answered same ends with a cut between if and only if no proven same-batch pair spans it |
| ReleaseBatches.NeverSkips | scripts/generate-release-batches.ts:246-249 | with answers from any fixed partition the "no place left" branch is never taken |
| ReleaseBatches.PlaceIsLeft | scripts/generate-release-batches.ts:246-249 | a pair of two batches always has a place that no proven pair covers |
| ReleaseBatches.TruePartition | scripts/generate-release-batches.ts:222-255 | with answers from any fixed partition, every card-sharing pair of a run ends separated or proven same, never both; pairs of different batches end separated |
| ReleaseBatches.NeighboursGiveTheBoundaries | scripts/generate-release-batches.ts:216-220 | where every neighbouring pair is answered, the cuts are exactly the true boundaries |
| ReleaseBatches.SeparatedExactly | scripts/generate-release-batches.ts:212-221 | two sets are of two batches in every partition the answers allow if and only if an answer forces it |
| ReleaseBatches.TogetherExactly | scripts/generate-release-batches.ts:212-221 | and of one in every such partition if and only if same-batch answers cover all between them |
| ReleaseBatches.BoundariesExactly | scripts/generate-release-batches.ts:212-255 | the cuts are the true boundaries in every such partition if and only if each cut is forced and each other place covered |
| ReleaseBatches.TruthExactly | scripts/generate-release-batches.ts:240-245 | some partition agrees with the answers if and only if no pair answered later is wholly covered by pairs answered same |
| ReleaseBatches.UncontradictedSettles | scripts/generate-release-batches.ts:222-255 | then no boundary is skipped, every pair answered later ends cut, and every answered pair ends proven same or separated |
| ReleaseBatches.LaterMayBeUncut | scripts/generate-release-batches.ts:246-249 | contradictory answers: a pair answered later with no cut between, and the warning |
| ReleaseBatches.SeparatedMayBeTogether | scripts/generate-release-batches.ts:216-220 | a date whose separated pair is of one true batch |
| ReleaseBatches.BatchesOf | scripts/generate-release-batches.ts:261-269 | the loop's map gives each set the number of boundaries before it |
| ReleaseBatches.BatchCounts | scripts/generate-release-batches.ts:261-269 | a set's batch number is the number of places up to it where the codes fall or a cut is |
| ReleaseBatches.OrderReproduces | scripts/generate-release-batches.ts:257-269 | for any cuts, sorting distinct sets by (batch, code) gives back the measured sequence |
| ReleaseBatches.BatchesAnswer | scripts/generate-release-batches.ts:261-269 | with the found cuts, pairs proven same share a batch number; pairs answered later get a later one if and only if a place was left |
| PrintTiers.CertainTiers | scripts/generate-print-tiers.ts:154-184 | the loops label every row as the specification does, the whole first run included |
| PrintTiers.LabelledAtAll | scripts/generate-print-tiers.ts:154-168 | told by the rises of the dates: any row is labelled exactly where there is a first rise and a never-last row at it, a plain row above it or a second rise; then every row above it is tier 0 |
| PrintTiers.LabelledExactly | scripts/generate-print-tiers.ts:147-184 | past the guards, where the second tier is shown, a row is labelled if and only if all hidden tiers the rows allow give it one tier |
| PrintTiers.ThreeRunsLabelled | scripts/generate-print-tiers.ts:178-182 | three runs leave no row of them unlabelled |
| PrintTiers.AnchoredLabelled | scripts/generate-print-tiers.ts:165-182 | where only the anchor lets a sequence pass, exactly its first run is labelled |
| PrintTiers.ProvenExactly | scripts/generate-print-tiers.ts:147-184 | past the guards, every label is right whatever the hidden tiers if and only if there are three runs or the second holds a never-last row |
| PrintTiers.LabelsExactly | scripts/generate-print-tiers.ts:147-184 | for one assignment of true tiers, every label is right if and only if the first run ends in tier 0 |
| PrintTiers.LabelsSound | scripts/generate-print-tiers.ts:147-184 | three runs, or two whose second opens in the second tier: every label is the true tier |
| PrintTiers.LabelsSoundOnNeverLast | scripts/generate-print-tiers.ts:143-168 | where the second run opens on a never-last row nothing need be assumed |
| PrintTiers.RunsAreFew | scripts/generate-print-tiers.ts:155-182 | true tiers make at most three runs, and only second-run rows are ever left unlabelled |
| PrintTiers.AnchoredMayMislabel | scripts/generate-print-tiers.ts:165-168 | an anchored sequence whose first run is labelled wrongly |
| IsLists.TabKeyInjective | scripts/generate-is-lists.ts:262-267 | keys joined by a tab tell their parts apart when the first has none |
| IsLists.Entries.Add | scripts/generate-is-lists.ts:262-267 | adds one number under its kind and key and changes no other answer |
| IsLists.AddDecides | scripts/generate-is-lists.ts:269-278 | one entry more: rows it does not name keep their verdict, and a row it names gets the entry's unless a narrower entry or an exclusion decided |
| IsLists.SelfCheck | scripts/generate-is-lists.ts:315-330 | passes if and only if the table is exact on every row not marked unindexed |
| IsLists.PrintingExact | scripts/generate-is-lists.ts:332-365 | whole sets with their exceptions and named printings and rows make an exact table |
| IsLists.PrintingList | scripts/generate-is-lists.ts:333-365 | for any whole-set threshold and any index: which sets, printings, rows and exceptions the list names, no more and no fewer; only rows not held are marked; the list is exact on every row held and not marked before, and its self-check never stops |
| RelatedList.RelatedExact | scripts/generate-is-lists.ts:411-428 | the table is exact if and only if every row of the class without an oracle id was marked before |
| RelatedList.RelatedList | scripts/generate-is-lists.ts:398-430 | stops when the counts disagree, marking nothing; otherwise which cards and printings the table names and which rows are marked, no more and no fewer: a printing's only where its probe row is not held or was marked; the self-check passes if and only if every row of the class can be named |
| RelatedList.NamelessRowStops | scripts/generate-is-lists.ts:415-428 | for a row of the class without an oracle id the table the script builds is not exact |
| ArtReps.TokensOf | scripts/generate-art-reps.ts:142-161 | refuses exactly the numbers tokens cannot hold, and else writes maximal ascending disjoint runs of exactly the whole numbers, then the other rows sorted once each |
| ArtReps.Fold | scripts/generate-art-reps.ts:152-158 | the two loops over the sorted numbers write one token for each of the separate runs that cover exactly them |
| ArtReps.RunsUnique | scripts/generate-art-reps.ts:136-141 | a set of numbers has one list of separate runs |
| ArtReps.SameTokensExactly | scripts/generate-art-reps.ts:142-161 | two listings of the same rows are written alike if and only if every number without neighbours is repeated in both or in neither |
| ArtReps.OrderDoesNotMatter | scripts/generate-art-reps.ts:151-160 | any order of the same rows is written alike |
| ArtReps.RepeatsCanMatter | scripts/generate-art-reps.ts:153-157 | one number listed twice is written differently from the number listed once |
| ArtReps.ParsesExactly | engine/builder/src/art_reps.rs:83-94 | the reader takes what was written, and panics, exactly by whether its numbers beyond 32 bits stand alone |
| ArtReps.LargeRunPanics | engine/builder/src/art_reps.rs:83-94 | 2^32 and the number before it are written as a run the reader panics on |
| ArtReps.VerdictExact | engine/builder/src/art_reps.rs:122-139 | for every row asked, the reader's verdict on the written tokens is membership in the input rows |
| ImportLines.ScanJsonlSlice | src/import-lines.ts:44-88 | for any chunking and stop decisions: lines delivered, bytes consumed, and exhaustion are those of the unchunked stream |
| ImportLines.ScanChunk | src/import-lines.ts:62-78 | the inner loop, whatever follows the chunk |
| ImportLines.SliceFacts | src/import-lines.ts:44-88 | from any offset, a slice's lines and the rest's are the stream's; it stops after a newline or at the end |
| ImportLines.LinesRejoin | src/import-lines.ts:62-86 | the lines put back with their newlines are the dump, and none holds a newline |
| ImportLines.StopsExactly | src/import-lines.ts:69-86 | a slice delivers the lines up to the first, of those a newline ends, after which the callback asks to stop, and else all; an unended last line is never asked about |
| ImportLines.ResumeExact | src/import-lines.ts:44-88 | after any number of slices from summed offsets: exactly the lines up to the offset, once each in order; the offset is a line start or the end |
| ImportLines.ResumeFinishes | src/import-lines.ts:44-88 | more slices than lines deliver the whole dump, and consumed sums to its length |
| ImportLines.JsonlLines | scripts/seed-oracle-index.ts:91-110 | for any chunking, the same lines without the empty ones |
| ImportBudget.PaceStaysInBand | src/import-budget.ts:467-472 | over any run from the unset pace, the pace stays in its band |
| ImportBudget.ThroughputExactly | src/import-budget.ts:455-472 | over any run, every window's churn is at most the ceiling times its time plus half a millisecond of it an alarm, if and only if each alarm's churn can be absorbed |
| ImportBudget.ThroughputBounded | src/import-budget.ts:455-472 | the bound over one window of alarms that can each be absorbed |
| ImportBudget.PauseExactly | src/import-budget.ts:455-460 | a pause is given if and only if it is needed at the pace to the nearest millisecond, none below zero and none above the longest |
| ImportBudget.DueExactly | src/import-coordinator.ts:1502-1509 | the next alarm is due no sooner than the step's delay, later only as long as the churn needs at the pace set, and no later than the longest pause |
| ImportBudget.DelayCovers | src/import-budget.ts:455-460 | an alarm and its pause last as long as the pace asks for its churn if and only if the alarm and the longest pause would |
| ImportBudget.OneAlarmBounded | src/import-coordinator.ts:1502-1509 | with the pace the coordinator sets and the step's own delay, an alarm's churn fits the time to the next at the ceiling if and only if it can be absorbed |
| ImportBudget.ReachesFloorAndCeiling | src/import-budget.ts:424-433 | over runs of alarms: 3 late ones reach the floor and 56 busy on-time ones the ceiling from anywhere, fewer do not from the other end, and idle on-time ones leave the pace |
| ImportBudget.CappedPauseOutrunsTheCeiling | src/import-budget.ts:432-433 | a burst that cannot be absorbed, and outruns the ceiling |
| ImportBudget.GateRemembers | src/import-budget.ts:923-931 | starting without lz4, it is on if and only if some projection was within the ON line and all later ones within the OFF line |
| ImportBudget.FlappingIsPaid | src/import-budget.ts:923-931 | over any projections, (changes - 1 - 2 switch-offs by a projection not above zero) times the dead band is at most their total variation |
| ImportBudget.OneProjectionExactly | src/import-budget.ts:928-930 | a projection pays for what it does to the codec if and only if it is positive or finds lz4 off |
| ImportBudget.GateCannotFlap | src/import-budget.ts:923-931 | over positive projections, (changes - 1) times the dead band is at most their total variation |
| ImportBudget.ZeroProjectionsFlap | src/import-budget.ts:928 | projections of zero between tiny ones: four changes for less movement than even one free change for each would leave |
| ImportBudget.HighWaterIsOneBuild | src/import-budget.ts:773-782 | a replica is counted at the larger of the build's gzip and its cache form, and at no more |
| ImportBudget.StrandedCounts | src/import-budget.ts:784-809 | what replaced coordinators hold is counted byte for byte: lz4 stays if and only if it fits under the OFF line beside the rest |
| ImportBudget.ShardsFitExactly | src/import-budget.ts:842-853 | a number of shards is within the computed cap if and only if its projection is within the OFF line |
| ImportBudget.CapAgreesWithGate | src/import-budget.ts:842-853 | at the cap the gate keeps lz4, one more shard per region turns it off |
| ImportBudget.Lz4CapIsSmaller | src/import-budget.ts:780-782 | the lz4 cap never exceeds the gzip cap |
| ImportPurge.PlanPurgeSlice | src/import-purge.ts:120-132 | the shortest non-empty front that reaches the budget, or all of it; its last key and its bytes |
| ImportPurge.ReachesOnce | src/import-purge.ts:114-119 | there is one such front |
| ImportPurge.DeleteLeaves | src/import-coordinator.ts:5648-5669 | the delete up to a key within one group removes exactly the planned rows |
| ImportPurge.Staging.PurgeSlice | src/import-coordinator.ts:5629-5671 | one slice deletes the planned rows of the first group in scope, and no row out of scope; nothing in scope answers null |
| ImportPurge.Staging.StepPurgeStaging | src/import-coordinator.ts:5681-5712 | however groups and row limits cut the walk, an alarm deletes exactly the shortest front of the scope that reaches its budget, and moves on exactly when it stayed under |
| ImportPurge.AlarmsBounded | src/import-budget.ts:140-142 | (alarms - 1) times the budget is at most the bytes |
| ImportPurge.SlicesEmpty | src/import-purge.ts:107-132 | repeated slices delete every row once, in order, and end |
| ImportPurge.SlicesAreOk | src/import-purge.ts:114-132 | every slice is of one group, within the row limit, and under the budget without its last row |
| ImportPurge.SlicesBounded | src/import-budget.ts:140-142 | slices are at most bytes/budget + rows/64 + groups |
| BlobCodec.SplitBatch | src/import-spill.ts:50-60 | the loop reads the frames, refuses a header cut short, and cuts a last entry where the batch ends |
| BlobCodec.SplitExactly | src/import-spill.ts:50-60 | a batch reads as the entries framed in it, the last cut where the batch ends, and a batch that ends inside a header does not read |
| BlobCodec.SplitUndoesFrames | src/import-spill.ts:37-60 | framed entries are read back as they were |
| BlobCodec.UnpackedLengthExact | src/import-blob-codec.ts:186-201 | whenever a blob unpacks, to anything, the length read off it is the length |
| BlobCodec.PackBlobUnpacks | src/import-blob-codec.ts:89-96 | for any sound compressor, packing round-trips if and only if the length fits its word |
| BlobCodec.PlainBatchPassesThrough | src/import-blob-codec.ts:20-30 | a batch staged unpacked looks packed if and only if its first entry has the one length that spells the magic; else it is read as it is |
| BlobCodec.StoredIsSound | src/import-blob-codec.ts:114-119 | what is assumed of a compressor can be met |
| BlobCodec.PackStream.constructor | src/import-blob-codec.ts:131-136 | an empty stream |
| BlobCodec.PackStream.Push | src/import-blob-codec.ts:148-156 | one more entry; compressed, handed over and waiting bytes stay the framed entries; handed over exactly when 64KB wait |
| BlobCodec.PackStream.Drain | src/import-blob-codec.ts:158-168 | what waits goes to the compressor in one push |
| BlobCodec.PackStream.Finish | src/import-blob-codec.ts:171-183 | a header of the raw length and the whole stream of exactly the entries pushed, wherever the drains fell |
| BlobCodec.StreamedUnpacks | src/import-blob-codec.ts:114-119 | the finished blob's length is the sum of (4 + entry), it unpacks to the framed entries if and only if that fits 32 bits, as packBlob's does, and splits into the entries |
| ProjectConfig.StripJsonc | scripts/project-config.ts:18-50 | the character loop writes the text's tokens with the comments taken out |
| ProjectConfig.BlockCommentGoes | scripts/project-config.ts:40-45 | told by characters: the text before the first comment stays, a block comment goes up to its first closing mark, and the rest is stripped in turn; unclosed, all goes |
| ProjectConfig.LineCommentGoes | scripts/project-config.ts:35-39 | a line comment goes up to its line break, which stays, or is put at the end |
| ProjectConfig.FirstComment | scripts/project-config.ts:35-47 | a text has no opener outside its strings, or a first one after characters that hold none |
| ProjectConfig.TokensAreTheText | scripts/project-config.ts:17-50 | the tokens are the text cut into pieces, with nothing lost |
| ProjectConfig.StripKeepsTokens | scripts/project-config.ts:17-50 | reading the output again gives the same tokens without the comments: nothing joins into a new one |
| ProjectConfig.StripIdempotent | scripts/project-config.ts:17-50 | stripping twice is stripping once |
| ProjectConfig.StripKeepsLiterals | scripts/project-config.ts:23-34 | every string literal, in order and verbatim |
| ProjectConfig.StripLeavesNoOpener | scripts/project-config.ts:35-47 | the output has no comment opener outside a string |
| ProjectConfig.UnchangedExactly | scripts/project-config.ts:17-50 | text is returned unchanged if and only if it has no comment opener outside its strings |
| ParitySweep.CsvCells | scripts/parity-sweep.ts:3144-3164 | the loop computes the scan of the line |
| ParitySweep.CellsOfAnyLine | scripts/parity-sweep.ts:3144-3164 | any line, well quoted or not: cells part at the commas after an even number of quotes, and hold all but those and the quotes, one for each doubled one |
| ParitySweep.CellsRoundTrip | scripts/parity-sweep.ts:3140-3164 | for every non-empty list of cells, encoded with quotes wherever needed or wanted, parsing gives the cells back |
| ParitySweep.EncodingIsInjective | scripts/parity-sweep.ts:3140-3164 | different cell lists never encode to one line |
| LiveParity.ObjectsAlike | scripts/live-parity.ts:449-459 | two objects have one key-sorted form if and only if they hold the same keys with alike values |
| LiveParity.AlikeExactly | scripts/live-parity.ts:449-459 | canonical forms are equal if and only if the documents are one but for the order of fields |
| LiveParity.CollectDiffs | scripts/live-parity.ts:470-488 | the recursion appends exactly the specified diffs to the list |
| LiveParity.NoDiffsExactly | scripts/live-parity.ts:449-488 | nothing is reported if and only if the canonical forms are equal |
| DiffsExact.DiffsExactly | scripts/live-parity.ts:470-488 | a diff is reported if and only if, where both documents lead together, they differ by it: a key of one, array lengths, or values |
| DiffsExact.DiffsOnce | scripts/live-parity.ts:470-488 | no path is reported twice |
| LiveParity.GetAtPath | scripts/live-parity.ts:490-506 | the loop walks as the specification does |
| LiveParity.DiffsLead | scripts/live-parity.ts:470-506 | every value or missing-key diff reports what getAt finds at its path on both sides |

## Left out

- Timing of the deploy protocol: the fence and its settle wait, key propagation, and a lease's expiry date; an expiry is a step of its own, and reads answer.
- Reads that fail: a failed lease read answers yes, and a failed manifest read or list skips the sweep and the guard.
- Atomic steps: a begin, a commit (manifest read, lease check, puts) and a finish are each one step, and every build has a `built_at` of its own; release's get-then-delete is inside the finish.
- The nightly coordinator as a publisher, and `planFormatRetirement`, which deletes older formats' manifests.
- Key sizes a listing only estimates (`listedKeyBytes`), and the family report of a plan.
- KvRetention.LiveManifestRoles: the sort is modelled as finding the entry nothing sorts before, and `others` as the set of builds named.
- `laterBatch`'s queries: an answer of a pair is a function of the pair; release dates are integers.
- `isVariant` and `defaultTier`: a row carries whether it is a variant; `measure` is not modelled.
- IsLists.PrintingList: the share 0.9 is a parameter, and the share 0.0005 of the related list is compared without floating-point rounding; search answers and the index are given.
- `cardList`, `rowList`, `coveredList`, and the text a table is printed as.
- ArtReps.TokensOf: a number converts exactly, as it does up to 2^53 - 1; joining the tokens by spaces, the date gate and the lookup of the set are not modelled; the reader's sorts keep what its searches ask for.
- ArtReps.VerdictExact: of a row asked with an `@` in its number, which tokens cannot hold, nothing is said; languages are taken to hold no `..`.
- Decoding of a line's bytes to text in `jsonlLines`.
- ImportBudget.ThroughputBounded: arithmetic is over integers and reals; IEEE rounding and non-finite projections are not modelled.
- Projections from a manifest (`stagingBytesOf`, `partitionCacheBytes`, `manifestPoolShardCap`): plain sums.
- ImportPurge.Staging.PurgeSlice: a row's `group` stands for its table and scope value in walk order, so the loop over tables and the discovery of the lowest scope value are one choice of the first group present; the transaction and the progress record are not modelled.
- BlobCodec.PackStream.Push: entries are values, so a caller changing a pushed buffer before the drain is not modelled; `packedBound` and the compressor's own buffering are not part of this model.
- BlobCodec.UnpackBlob: what inflating does on a wrong buffer length is the compressor's; None stands for its error and for the length check's.
- ProjectConfig.StripJsonc: the rewrite of trailing commas that follows the loop is not part of this model.
- LiveParity.CollectDiffs: `stringify` is taken as injective on sorted values; keys inherited from a prototype, the engine's order of integer-like keys and `Number` of a segment that is not a decimal numeral are not modelled.
- Characters are compared unit by unit; no Unicode normalisation.
