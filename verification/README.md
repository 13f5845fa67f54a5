# Verified models of Athena's publication, demo, monitoring, canonical-form, preflight and presentation logic

These Dafny modules model six parts of the repository and prove what the code relies on. The models
take the branches, constants and error conditions of the code they cite, apart from what "Left out"
lists. The main theorems speak of all inputs, all runs or all reachable states; where a property fails,
they say exactly when, and a concrete input shows it.

**Publication of incidents and live presentations** (`IncidentDocuments`, `Publication`,
`PublicationRetry`, `PublicationSystem`, `PublicationTheorems`, `IndexContents`, `PublicationSuccess`,
`PublicationFaults`, `PublicationRaces`, `PublicationProgress`, `PublicationReaders`, `PublicationTrust`,
`Publisher`).
Many publishers and heartbeats share blob containers and are interleaved one storage call at a time; any
call may fail before or after it took effect, lose its response, or be the last of a crashed process.
Documents are symbolic: equal payloads are equal bytes, SHA-256 is an injective constructor and a
signature verifies exactly for the key and message it was made from. The same step function is what the
imperative classes of `Publisher` are proved against.

**The operational demo saga** (`PhaseChain`, `PhaseRunner`, `PhaseJobs`, `DemoSaga`, `DemoSafety`,
`DemoEscapes`, `DemoEvidence`, `DemoAcceptance`, `DemoCompletion`, `DemoOperator`).
Ports are arbitrary functions of everything that happened before and may fail at every call; the checks of
a phase's artifacts may hold, be refused, or raise an exception that no handler foresees. The run is
one function of its ports, an automaton says which histories are safe, and the class `Operator` is
proved to compute that function. Phase jobs share a container and are interleaved one upload at a time.

**Monitoring collection** (`IncidentExpansion`, `MonitoringCoverage`, `CoverageTiling`, `CoverageRules`).
The fixpoint that grows an incident window, the assignment of query executions to coverage records, and
what an accepted coverage says about time. Times are integer milliseconds.

**Canonical JSON and manifest digests** (`Calendar`, `Timestamps`, `TimestampMeaning`, `StableSort`,
`CanonicalJson`, `JsonNormalization`, `CanonicalText`, `CanonicalParser`, `CanonicalShortest`, `KeyOrder`,
`KeyAscent`, `ManifestSelectors`, `ManifestDigests`, `ManifestStability`, `ManifestFields`,
`ManifestViews`, `ManifestOrder`, `ManifestDisorder`, `ManifestPayloads`, `ManifestRefusal`,
`ManifestTexts`, `ManifestHashing`). The printer of section 3.2 of RFC 8785 with
the two programs' own normalization in front, a parser for its output, the day-number arithmetic of
section 21.4.1 of ECMA-262, and the default filling and sorting before a manifest is hashed. Texts are
UTF-16 code units. What is proved about the order of a manifest is proved for any view that knows
lists and objects by their parts: equality is one, the canonical text that is hashed is another.

**Preflight** (`ArmScopes`, `PreflightWalks`, `WhatIf`, `WhatIfEvaluation`, `WhatIfWords`,
`WhatIfDelta`, `WhatIfPolicy`, `WhatIfReports`, `RoleAssignments`). Resource identifiers and scopes, the
explicit-stack walks, and the two evaluators built on them, whose answers are stated of the words of the
documents.

**Presentation payloads** (`PresentationContract`, `PresentationParser`, `PresentationProjection`,
`PresentationSource`).
The Python projection, the Python payload contract, the browser's parser and its two derivations.

`Options` and `StableSort` are shared.

What the proofs turned up about the code:

- A browser refuses a presentation whose manifest version has more than 128 characters, although the
  Python contract puts no bound on it; that is the only way in which an emitted payload is not read
  (`EmittedIsRead`, `LongVersionsAreRefused`).
- The two timestamp tests agree except on the years 1 to 99, which the round trip through UTC moves to
  1901 to 1999, and the two normalizers moreover differ on more than three fraction digits
  (`TestsAgree`, `NormalizersAgreeExactly`).
- A property named `__proto__` is dropped by normalization, so documents that differ only in it have one
  canonical text (`OnlyProtoIsLost`, `ProtoIsInvisible`).
- The operator's handlers catch operator errors only, and the integrity checks turn a fixed list of
  exceptions into those. Anything else that the checks of the faulted phase raise (a recursion error from
  a deeply nested source envelope, say) ends the run with the fault injected and no reset attempted. That
  is the only way: injections and resets are equally many exactly when those checks do not escape
  (`RunsResetWhatTheyInject`, `EscapeLeavesTheFault`, `SomeRunIsNotReset`).
- The order of a manifest's elements does not reach the canonical manifest exactly when, wherever
  elements are sorted, those with equal case-folded keys have equal canonical forms
  (`ManifestPayloads.OrderIsForgottenExactly`). It does not reach the digests exactly when those forms
  have equal canonical texts, which is less: keys are read before texts are normalized, so two elements
  that spell one instant as "2026-01-01T00:00:00Z" and "2026-01-01T00:00:00+00:00" keep their order in
  the manifest but not in what is hashed (`DigestsForgetOrderExactly`, `SpellingsReachNoDigest`).
- The resource-type scan reads an identifier whose provider blocks have types as it is written exactly
  when no type that it sees in the last provider block is called "providers"; the first type of a single
  block is not looked at, and neither resource names nor earlier blocks ever mislead it (`TypeOfChain`,
  `TypeCalledProvidersMisleads`, `EarlierBlocksDoNoHarm`).
- The previous healthy observation is compared with the window before expansion, and may end after the
  start of the expanded one. It ends before it exactly when no eligible observation that starts before
  its end reaches the window expanded without such observations; it is enough that none lasts until its
  end (`PreviousStaysBefore`, `NothingLastsUntil`, `ExpansionMayOvertakePrevious`).
- The pattern for the scope of a management group leaves a dot unescaped, so any character but a line feed
  may stand between "microsoft" and "management" in a scope that counts as broad (`BroadExactly`).
- A publication that is built in a reachable state and meets no fault fails only where something was
  written into the directory of its state under another digest, or where the incident has a pointer that
  is as new (`PublicationSucceeds`); a heartbeat never does (`HeartbeatSucceeds`).
- Within one call, a publication makes good a missing version id and, for incident documents, a connection
  lost while uploading, unless the upload never arrived and the name is free. The first fault that is not
  made good ends the call (`EndsExactly`, `FinishesExactly`).
- The operator's check that the three receipts name one resource group can never fail (`OneResourceGroup`).

`dafny verify dfyconfig.toml` checks the whole project.

## Model

| member | source | states |
|---|---|---|
| Publication.AdvanceProgresses | src/athena_context/azure_adapters.py:1008-1087 | every storage call keeps the request, a program point that fits it, and brings the publisher nearer to its end |
| PublicationRetry.UploadIsACalmStep | src/athena_context/azure_adapters.py:1164-1208 | an upload that took effect, reported or not, leaves exactly the state from which a clean run continues |
| PublicationRetry.StepKeepsOutcome | src/athena_context/azure_adapters.py:1008-1087 | no single call, however it fails, changes what a clean run from the start would end with |
| PublicationRetry.RetryConverges | src/athena_context/azure_adapters.py:1124-1208 | after any number of attempts that failed anywhere, a clean retry ends with the receipt and store of a clean first run (live runs: the same contents) |
| PublicationRetry.SuccessIsStored | src/athena_context/azure_adapters.py:1056-1087 | success means every asset is stored and each returned reference names the stored version holding exactly the payload |
| PublicationSuccess.SucceedsExactly | src/athena_context/azure_adapters.py:1008-1110 | with nobody else writing and no fault, a publication, heartbeat or live publication succeeds exactly when every asset name is free or holds that asset, current.json is absent, its own, or strictly older and trusted, and active.json is its own or the index it was built from; nothing else is touched |
| PublicationFaults.EndsExactly | src/athena_context/azure_adapters.py:1124-1208 | under any failures of its calls, with nobody else writing, a call ends as a faultless one does, or with the error and the store of the first fault that it cannot make good |
| PublicationFaults.FinishesExactly | src/athena_context/azure_adapters.py:1008-1110 | it succeeds exactly when the store it finds allows it and every fault it meets is made good: a missing version id, or, for incident documents, a connection lost during an upload that arrived or was not needed |
| PublicationRaces.OvertakenIsTold | src/athena_context/azure_adapters.py:1376-1413 | a publisher whose pointer or index was written by somebody else after it read it never replaces it, however much later its call arrives, and is told of a conflict if it is answered |
| PublicationRaces.OnlyOneWins | src/athena_context/azure_adapters.py:1376-1413 | of two publishers that have read the same state of a mutable blob, the call of one being applied means that the other's never is |
| PublicationProgress.PublicationSucceeds | src/athena_context/azure_adapters.py:1286-1374 | in every reachable state a publication built there succeeds exactly if its pointer is news |
| PublicationProgress.HeartbeatSucceeds | src/athena_context/azure_adapters.py:1088-1110 | and a heartbeat built there always succeeds |
| PublicationTrust.AcceptedExactly | src/athena_context/presentation_assets.py:162-252 | a request is let through exactly when all its parts are about one state of one incident |
| PublicationTrust.OnlyASixtyFifthFails | src/athena_context/contracts/eventing.py:603 | building a request can only fail by making a sixty-fifth incident active |
| PublicationSystem.StepKeepsInv | src/athena_context/azure_adapters.py:1008-1110 | every action of any publisher, restart or crash keeps the invariant, and immutable blobs never change |
| PublicationSystem.ExecutionKeepsInv | src/athena_context/azure_adapters.py:1008-1110 | so does every finite interleaving of any number of publishers |
| PublicationSystem.BuiltIsStored | src/athena_context/azure_adapters.py:1056-1068 | a request whose uploads are all in place has its pointer, state, attestations and index attestation stored with matching digests |
| PublicationTheorems.IndexChangeReplacesItsBasis | src/athena_context/azure_adapters.py:1335-1413 | each change of active.json replaces the very index its request was built from, by the next index of that change, published later |
| PublicationTheorems.IndexIsFoldOfChanges | src/athena_context/azure_adapters.py:1335-1413 | the stored index is the fold of all committed changes in commit order: no update is lost |
| IndexContents.CommitKeepsOthers | src/athena_context/eventing/incident_state.py:243-297 | each change of active.json says of the published incident what its state says, and keeps the entry of every other incident; a heartbeat keeps them all |
| IndexContents.IndexSaysLast | src/athena_context/eventing/incident_state.py:181-297 | in every reachable state an incident is in the index exactly when its last committed publication was of an active state, and its entry holds the scenario, role, version, pointer digest and times of that publication |
| IndexContents.UnchangedIsReused | src/athena_context/eventing/incident_state.py:299-388 | a request asks for the index it was built from exactly when the publication changes nothing |
| PublicationTheorems.IndexNeverRecurs | src/athena_context/azure_adapters.py:1363-1373 | no value of active.json ever comes back |
| PublicationTheorems.ReferentialIntegrity | src/athena_context/azure_adapters.py:1056-1068 | in every reachable state every mutable blob names only stored blobs with their digests, signed by the deployment's key |
| PublicationTheorems.IndexNeverAheadOfPointer | src/athena_context/azure_adapters.py:1066-1068 | the pointer an active entry names is a present or past value of that incident's current.json |
| PublicationTheorems.PointerChangesAreNewer | src/athena_context/azure_adapters.py:1323-1333 | current.json of an incident is never removed and only ever replaced by a strictly newer pointer |
| PublicationReaders.CurrentStateLinearizes | src/athena_context/azure_adapters.py:862-1006 | reading a current state while publishers run never rejects and returns what storage said at the first read |
| PublicationReaders.ActiveIndexLinearizes | src/athena_context/azure_adapters.py:792-860 | neither does reading the active index |
| PublicationReaders.IncidentRequestsLinearize | src/athena_context/presentation_asset_gateway.py:221-287 | every gateway request under /incidents/ is answered as if all its reads had happened at the first one |
| PublicationReaders.LiveRequestsLinearize | src/athena_context/presentation_asset_gateway.py:408-420 | so is every request for the runtime manifest and the assets it names |
| PublicationTrust.CurrentExactly | src/athena_context/azure_adapters.py:862-1006 | whatever is in storage, a current state is returned exactly when the five blobs are what this deployment publishes of it, with a receipt of the versions read unless it claims to be older than the state |
| PublicationTrust.ActiveExactly | src/athena_context/azure_adapters.py:792-860 | the active index is returned exactly when its attestation is what this deployment publishes of it |
| PublicationTrust.ServedIsVouched | src/athena_context/presentation_asset_gateway.py:221-287 | whatever is in storage, nothing is served under /incidents/ that a signed index does not vouch for |
| PublicationTrust.LiveIsNamed | src/athena_context/presentation_asset_gateway.py:408-420 | of the live assets exactly the manifest and what it names, slot by slot, is served |
| Publisher.BlobContainer.Upload | src/athena_context/azure_adapters.py:1376-1413 | a conditional upload changes the container exactly as the specification of one storage call says |
| Publisher.IncidentPublisher.RecoverImmutableReference | src/athena_context/azure_adapters.py:1124-1162 | a reference is recovered exactly when the stored copy holds the payload with intact metadata |
| Publisher.IncidentPublisher.UploadImmutable | src/athena_context/azure_adapters.py:1164-1208 | the create-only upload with recovery is the specification's upload step followed, if need be, by its recovery step |
| Publisher.IncidentPublisher.Swap | src/athena_context/azure_adapters.py:1376-1413 | the missing-blob upload and the etag-conditioned overwrite are one compare-and-swap |
| Publisher.IncidentPublisher.PublishCurrentPointer | src/athena_context/azure_adapters.py:1286-1333 | reading and swapping the pointer takes the process to where the specification takes it, failures included |
| Publisher.IncidentPublisher.PublishActiveIndex | src/athena_context/azure_adapters.py:1335-1374 | reading and swapping the index takes the process to where the specification takes it, failures included |
| Publisher.IncidentPublisher.PublishIncident | src/athena_context/azure_adapters.py:1008-1087 | the whole call returns and leaves behind exactly what the specified run does, in any weather |
| Publisher.IncidentPublisher.PublishActiveIncidentIndex | src/athena_context/azure_adapters.py:1088-1110 | so does a heartbeat |
| Publisher.PresentationPublisher.Publish | src/athena_context/azure_adapters.py:532-595 | the live publication places six assets and then overwrites the manifest, exactly as specified, and returns that manifest |
| PhaseChain.PhaseInputsAreValid | src/athena_context/operational_demo_operator.py:815-829 | the phase inputs the operator constructs always pass their own model's validators |
| PhaseChain.RunnerAcceptsWhatTheOperatorDoes | src/athena_context/operational_phase_runner.py:219-289 | the runner accepts its delivered inputs exactly when the operator accepts the receipt transition |
| PhaseChain.RunnerReadsTheSameDocuments | src/athena_context/operational_phase_runner.py:192-213 | whatever a runner accepted, it read the very receipt and index the operator meant |
| PhaseChain.OperatorAcceptsWhatTheRunnerBuilds | src/athena_context/operational_demo_operator.py:1003-1044 | an index passes all the operator's checks if and only if it is the one the runner builds |
| PhaseChain.ChainIsAccepted | src/athena_context/operational_phase_runner.py:627-707 | by induction over the phases, runner and operator accept each other's documents along the whole chain |
| PhaseRunner.WriteAllStores | src/athena_context/operational_phase_job.py:175-196 | a returned set of references is complete, in order, and names what is stored |
| PhaseRunner.WriteAllSucceeds | src/athena_context/operational_phase_job.py:175-196 | the set is written exactly when all names are free and no upload fails |
| PhaseRunner.ValidateWritten | src/athena_context/operational_phase_runner.py:411-449 | written references are accepted exactly when each names its request with the request's digest |
| PhaseRunner.RunPhaseKeepsIndexes | src/athena_context/operational_phase_runner.py:495-737 | whatever fails and wherever, no stored completion index lacks one of its five artifacts |
| PhaseJobs.JobsKeepIndexes | src/athena_context/operational_phase_runner.py:495-737 | nor does it while any number of jobs, started at any time, are interleaved upload by upload and fail or stop anywhere; and no stored blob is lost or changed |
| PhaseJobs.OneJobCompletes | src/athena_context/operational_phase_job.py:175-196 | of all jobs ever started for one phase of one run, at most one has an upload confirmed, so at most one completes |
| PhaseJobs.AloneIsRunPhase | src/athena_context/operational_phase_runner.py:495-737 | left alone, the interleaved runner stores and completes exactly as the whole phase run does |
| PhaseRunner.RunPhaseCompletes | src/athena_context/operational_phase_runner.py:495-737 | exactly when a phase completes, and that what it returns is where its index is stored |
| PhaseRunner.CompletedIndexIs | src/athena_context/operational_phase_runner.py:627-707 | the index of a completed phase carries the results of its evaluation and names, kind by kind, the contents it yielded |
| PhaseRunner.RunOperationalPhase | src/athena_context/operational_phase_runner.py:627-707 | the imperative runner changes the container and returns as the specified run does |
| DemoSaga.PollsAreSpaced | src/athena_context/operational_demo_operator.py:862-905 | the number of polls fits the time left until the deadline |
| DemoSaga.WaitIsBounded | src/athena_context/operational_demo_operator.py:862-905 | a wait makes at most ceil(timeout / interval) + 1 status reads |
| DemoEvidence.WaitSucceedsExactly | src/athena_context/operational_demo_operator.py:862-905 | a wait succeeds exactly when its last status read is about this execution and says succeeded, and every earlier one said in progress and ended before the deadline |
| DemoEvidence.ArtifactsReadExactly | src/athena_context/operational_demo_operator.py:934-958 | the artifacts are read exactly when each is there by its exact version and is what its digest says |
| DemoEvidence.PhasePassesExactly | src/athena_context/operational_demo_operator.py:1323-1368 | a phase is accepted exactly on evidence: the job started for its inputs succeeded and handed over an index that fits, and the five artifacts are sound; the evidence settles what is recorded and kept |
| DemoAcceptance.AcceptedOnEvidence | src/athena_context/operational_demo_operator.py:1371-1573 | whatever the ports answer, every phase accepted in a run rests on such evidence, read in that order before it, and follows the accepted phase before it |
| DemoAcceptance.AcceptedSucceeded | src/athena_context/operational_demo_operator.py:862-905 | so the last status read before an acceptance said that the started job of this run and phase succeeded |
| DemoAcceptance.PublishedAsIndexed | src/athena_context/operational_demo_operator.py:1219-1322 | the published digests are those the index of each phase names for the presentation and its attestation |
| DemoCompletion.CompletesExactly | src/athena_context/operational_demo_operator.py:1371-1573 | a run completes if and only if each action is confirmed by a report that continues the one before, each phase is proved after it, and a configured publisher confirms the manifest of what was proved |
| DemoSafety.StageCountsAttempts | src/athena_context/operational_demo_operator.py:1426-1573 | fault and reset are each attempted at most once |
| DemoSafety.InjectOnlyAfterBaseline | src/athena_context/operational_demo_operator.py:1426-1465 | an injection happens once and only after a verified baseline |
| DemoSafety.ResetFollowsInject | src/athena_context/operational_demo_operator.py:1458-1505 | where a run may end, an attempted injection was followed by exactly one reset attempt |
| DemoSafety.RecoveredOnlyAfterReset | src/athena_context/operational_demo_operator.py:1483-1525 | the recovered job follows only a confirmed reset and verified earlier phases |
| DemoSafety.PublicationOnlyAfterThreePhases | src/athena_context/operational_demo_operator.py:1515-1565 | publication is attempted only after three verified phases |
| DemoSafety.EveryRunIsSafe | src/athena_context/operational_demo_operator.py:1371-1573 | for arbitrary ports, every run is a safe history that ends in the very stage its outcome names, and it is aborted after the injection exactly when the checks of the faulted phase escape every handler |
| DemoSafety.RunsResetWhatTheyInject | src/athena_context/operational_demo_operator.py:1453-1514 | there is at most one injection and no more resets than that; they are equally many if and only if the checks of the faulted phase do not escape |
| DemoSafety.ForeseenErrorsAreReset | src/athena_context/operational_demo_operator.py:1475-1505 | if no check of a faulted phase can raise an unforeseen exception, what is injected is always reset |
| DemoEscapes.EscapeLeavesTheFault | src/athena_context/operational_demo_operator.py:1158-1200 | whatever reports the operator accepts, an unforeseen exception in the faulted phase's checks leaves one injection and no reset |
| DemoEscapes.SomeRunIsNotReset | src/athena_context/operational_demo_operator.py:971-979 | for every delivery bundle and target there is such a run |
| DemoSafety.CompletionIsFaithful | src/athena_context/operational_demo_operator.py:772-812 | success means one target, ordered times, running/stopped/running with states that meet, three linked indexes and a manifest of exactly the verified artifacts |
| DemoSafety.OneResourceGroup | src/athena_context/operational_demo_operator.py:1228-1322 | three linked phases always name one resource group |
| DemoSafety.BlindResetExactly | src/athena_context/operational_demo_operator.py:772-812 | a reset whose injection was never reported is accepted exactly when it is a valid reset of the baseline's target, begun no earlier than the baseline ended; its power state need not continue |
| DemoOperator.Operator.InvokeWorkloadAction | src/athena_context/operational_demo_operator.py:745-769 | one workload action, with the history it leaves |
| DemoOperator.Operator.WaitForPhaseSuccess | src/athena_context/operational_demo_operator.py:862-905 | the polling loop ends with the answer and history of its specification |
| DemoOperator.Operator.VerifyPhaseArtifacts | src/athena_context/operational_demo_operator.py:981-1225 | the artifact checks read and decide as specified |
| DemoOperator.Operator.RunVerifiedPhase | src/athena_context/operational_demo_operator.py:1323-1368 | one phase from start to verified artifacts |
| DemoOperator.Operator.RunOperationalDemo | src/athena_context/operational_demo_operator.py:1371-1573 | the whole run has the history and outcome of the function that the safety theorems are about |
| IncidentExpansion.Expand | src/athena_context/monitoring_collection.py:1946-1970 | the nested loop computes the least set containing the selection and closed under overlap with its hull, and that hull; nothing eligible that touches the window is left out |
| IncidentExpansion.OrderDoesNotMatter | src/athena_context/monitoring_collection.py:1946-1970 | the least closed set is unique, so the order of the observations does not matter |
| IncidentExpansion.TransitionWindow | src/athena_context/monitoring_collection.py:2134-2157 | the recomputed window is the tight hull of the cited observations |
| IncidentExpansion.TransitionWindowIsExpanded | src/athena_context/monitoring_collection.py:2134-2157 | and equals the window the expansion ended with |
| IncidentExpansion.PreviousStaysBefore | src/athena_context/monitoring_collection.py:1931-1970 | the previous observation ends before the expanded window exactly when no eligible observation starts before its end and reaches the window expanded without such observations |
| IncidentExpansion.NothingLastsUntil | src/athena_context/monitoring_collection.py:1931-1970 | a test before the expansion that suffices: no eligible observation starts before the previous one's end and lasts until it |
| IncidentExpansion.ExpansionMayOvertakePrevious | src/athena_context/monitoring_collection.py:1931-1970 | for every resource, state and instant, two observations whose expansion starts 50 ms before the previous one's end |
| MonitoringCoverage.CountListings | src/athena_context/monitoring_collection.py:1800-1836 | the counting loops compute how often each known digest is listed |
| MonitoringCoverage.IndexExecutions | src/athena_context/monitoring_collection.py:758-805 | records are indexed exactly when each is the reviewed query, fresh on both clocks, and no digest repeats |
| MonitoringCoverage.CheckBatch | src/athena_context/monitoring_collection.py:1800-1836 | the imperative checks accept exactly the batches that meet the declarative condition |
| MonitoringCoverage.ExactlyOneCoverage | src/athena_context/monitoring_collection.py:1800-1836 | on an accepted batch every query record is listed by exactly one coverage |
| MonitoringCoverage.ListedDigestsResolve | src/athena_context/monitoring_collection.py:1096-1121 | every listed digest is that of one accepted record of the same query and scope; resource-health coverage lists none |
| CoverageRules.ExecutionExactly | src/athena_context/monitoring_collection.py:758-805 | an execution is accepted exactly when its control reviews that very query, it lasts one window and its end is fresh on both clocks |
| CoverageRules.ScopeExactly | src/athena_context/monitoring_collection.py:1033-1093 | scopes must agree on resources, path, direction and flow, and on the endpoint test where the family has one |
| CoverageRules.HealthExactly | src/athena_context/monitoring_collection.py:1096-1170 | resource-health coverage is bound exactly when every instant of it is fresh; an activity log never binds one |
| CoverageRules.LogExactly | src/athena_context/monitoring_collection.py:1096-1204 | log coverage is bound exactly when it repeats the reviewed query, its end is fresh and its executions start one frequency after another, in whatever order they are listed |
| CoverageTiling.CoverageHasNoGap | src/athena_context/monitoring_collection.py:1176-1204 | an accepted coverage has length W + (n-1)F and every instant of it lies in some listed execution |
| CoverageTiling.SlotCoverage | src/athena_context/monitoring_collection.py:1176-1204 | slot j is observed by exactly min(j+1, n, W/F, W/F + n-1-j) executions |
| CoverageTiling.FreshnessBoundsExecutions | src/athena_context/monitoring_collection.py:796-805 | at most W/F + 2 executions are listed, and that many only when the last ends at the instant of collection |
| Calendar.DayFormula | apps/presentation-web/src/canonical.ts:141-178 | the closed day-number formula counts the days of the years |
| Calendar.RealDateReturns | apps/presentation-web/src/canonical.ts:141-178 | a real date comes back from its day number |
| Calendar.ReturnsIffReal | apps/presentation-web/src/canonical.ts:141-178 | and only a real date does |
| Calendar.FirstCenturyNeverReturns | apps/presentation-web/src/canonical.ts:141-178 | years 0 to 99 never come back |
| Calendar.DaysAreRight | apps/web/src/canonical.ts:27-62 | the last day of a month, asked of the date library as day 0 of the next, is right in every year |
| Calendar.TestsAgree | apps/web/src/canonical.ts:27-62 | the round-trip test and the days-in-month test accept the same dates exactly in year 0, from year 100 on, and where neither could accept |
| Timestamps.NormalizersAgreeExactly | apps/presentation-web/src/canonical.ts:108-129 | on timestamps the two programs agree exactly under the stated condition on fraction digits, year and form |
| Timestamps.PresentationIsIdempotent | apps/presentation-web/src/canonical.ts:108-129 | normalizing a timestamp twice is normalizing it once |
| Timestamps.ManifestIsIdempotent | apps/web/src/canonical.ts:27-62 | the same in the other program |
| Timestamps.IsoIsFixed | apps/presentation-web/src/canonical.ts:108-129 | what the date library writes is left alone by both programs |
| TimestampMeaning.ReadsExactly | apps/presentation-web/src/canonical.ts:8-15 | the pattern takes a text apart exactly as it is spelled |
| TimestampMeaning.PresentationExactly | apps/presentation-web/src/canonical.ts:108-178 | which texts are refused, left alone or rewritten, and that a rewritten text names the same moment in UTC, to the millisecond |
| TimestampMeaning.ManifestExactly | apps/web/src/canonical.ts:27-62 | the same in the other program |
| CanonicalJson.AssertUnicodeScalarText | apps/presentation-web/src/canonical.ts:91-106 | the index loop returns the NFC form of a text exactly when that form has no unpaired surrogate |
| JsonNormalization.ScalarExactly | apps/presentation-web/src/canonical.ts:91-106 | a text passes exactly when every surrogate is paired |
| JsonNormalization.NormalizesExactly | apps/presentation-web/src/canonical.ts:64-106 | normalization returns exactly what a value becomes, field by field and in order, and throws exactly when some text, key or number does not fit |
| CanonicalJson.NormalizeJson | apps/presentation-web/src/canonical.ts:64-89 | the imperative normalization computes the recursive one |
| CanonicalJson.NormalizeIsIdempotent | apps/presentation-web/src/canonical.ts:64-106 | normalization is idempotent |
| CanonicalJson.NormalizeIsNormal | apps/presentation-web/src/canonical.ts:64-106 | its results have normal texts and distinct normal keys throughout |
| CanonicalJson.ApplicationsFollowLaws | apps/web/src/canonical.ts:27-62 | both programs' timestamp rules meet the laws the proofs assume of normalization |
| CanonicalJson.OnlyProtoIsLost | apps/web/src/canonical.ts:64-102 | an object loses entries exactly when a key normalizes to `__proto__` |
| CanonicalJson.ProtoIsInvisible | apps/web/src/canonical.ts:64-102 | an entry under that key leaves no trace in the normalized value, whatever else the object holds |
| CanonicalText.RenderPrintsOrdered | apps/presentation-web/src/canonical.ts:18-37 | sorting keys while rendering is printing the value with its keys sorted throughout |
| StableSort.LexLeqExactly | apps/web/src/canonical.ts:203-212 | the order of texts is that of the first difference: a proper prefix, or the smaller unit where they first differ, comes first |
| KeyAscent.OrderedAscends | apps/presentation-web/src/canonical.ts:18-37 | ordering a value puts its keys in that order of UTF-16 code units, at every depth |
| KeyAscent.OrderedExactly | apps/presentation-web/src/canonical.ts:18-37 | and yields the one value that is the same up to key order and has its keys ascending |
| KeyAscent.CanonicalTextExactly | apps/presentation-web/src/canonical.ts:18-37 | the canonical text of a document is that of the one such value of its normalized form |
| CanonicalShortest.CanonicalIsShortest | apps/web/src/canonical.ts:104-119 | it is the shortest text of its value, and the only one as short: nothing is written or escaped that need not be |
| CanonicalParser.ParsePrint | apps/presentation-web/src/canonical.ts:18-37 | a parser recovers any printed value and stops where it ends |
| CanonicalParser.ParseRecoversNormalized | apps/presentation-web/src/canonical.ts:18-37 | parsing a canonical text gives back the normalized value, its keys in order |
| CanonicalParser.EqualTextsMeanEqualValues | apps/presentation-web/src/canonical.ts:18-37 | canonical texts are equal exactly when the ordered normalized values are |
| KeyOrder.KeyOrderIsForgotten | apps/web/src/canonical.ts:104-119 | values that differ only in key order, at any depth, have one rendering |
| KeyOrder.EqualTextsMeanSameValues | apps/web/src/canonical.ts:104-119 | two documents have one canonical text exactly when they normalize to the same value up to key order |
| ManifestSelectors.MaterializeTwice | apps/web/src/canonical.ts:128-199 | filling in selector defaults twice is doing it once, at every depth |
| ManifestSelectors.SortTwice | apps/web/src/canonical.ts:214-291 | so is sorting nested selectors |
| ManifestSelectors.PassesCommute | apps/web/src/canonical.ts:128-291 | defaults may be filled in before or after sorting |
| ManifestViews.SortIsStable | apps/web/src/canonical.ts:214-291 | sorting keeps the elements of each key in their order |
| ManifestViews.ExchangeShows | apps/web/src/canonical.ts:203-291 | exchanging two elements with equal keys shows in the sorted list exactly if they look different |
| ManifestOrder.RearrangedAlike | apps/web/src/canonical.ts:214-291 | selectors that differ in the order of nested children, at any depth, look the same in canonical form if children with one identifier do |
| ManifestDigests.ComparePythonText | apps/web/src/canonical.ts:203-212 | the loop compares by code points, and equality means equal texts |
| ManifestDigests.CodePointsDetermine | apps/web/src/canonical.ts:203-212 | a text is determined by its code points |
| ManifestFields.RootExactly | apps/web/src/canonical.ts:128-291 | the canonical manifest field by field: collections are arranged in order of their key fields, missing lists are empty, all else stays |
| ManifestFields.ProfilesExactly | apps/web/src/canonical.ts:181-291 | so are its profiles, all but one called `__proto__` |
| ManifestFields.ElementExactly | apps/web/src/canonical.ts:150-178 | which fields of roles, constraints and risk acceptances are filled in, and with what; all others stay |
| ManifestFields.SelectorExactly | apps/web/src/canonical.ts:134-148 | the same of selectors, by their type |
| ManifestFields.RoleSelectorsExactly | apps/web/src/canonical.ts:214-291 | the selectors of a role are all kept, in canonical form and in order of their identifiers |
| ManifestFields.ChildrenExactly | apps/web/src/canonical.ts:237-246 | so are those children of a selector that are objects |
| ManifestFields.PayloadExactly | apps/web/src/canonical.ts:293-305 | the hashed payload is the canonical manifest without the two digests, and for the semantic digest without display name and schema version; nothing else is left out |
| ManifestStability.CanonicalStays | apps/web/src/canonical.ts:128-291 | filling and sorting a canonical manifest changes nothing |
| ManifestStability.RefreshIsIdempotent | apps/web/src/canonical.ts:307-316 | refreshing the digests twice is refreshing them once |
| ManifestStability.SemanticDigestIgnores | apps/web/src/canonical.ts:293-305 | neither the display name nor the schema version reaches the input of the semantic digest |
| ManifestOrder.OrderIsForgotten | apps/web/src/canonical.ts:214-291 | if elements with equal keys look the same in canonical form wherever elements are sorted, permuting collections and nested selectors leaves every part of the canonical manifest looking the same |
| ManifestPayloads.OrderChangesNoDigest | apps/web/src/canonical.ts:293-316 | where equal keys have equal canonical forms, the payloads and the refreshed manifests are equal in every order, whatever the hash |
| ManifestOrder.UniqueManifestIsAlike | apps/web/src/canonical.ts:214-291 | unique keys are one way to meet that condition |
| ManifestHashing.ExchangeIsDigested | apps/web/src/canonical.ts:64-316 | exchanging two elements with equal keys in any collection of any manifest changes the hashed texts if and only if their canonical forms have different canonical texts |
| ManifestHashing.ProfileExchangeIsDigested | apps/web/src/canonical.ts:64-316 | the same in a collection of any profile, except one called `__proto__`, which reaches no digest |
| ManifestDisorder.SomeOrderShows | apps/web/src/canonical.ts:214-291 | wherever the condition fails, at any depth, some order of the manifest has a canonical form that looks different |
| ManifestPayloads.OrderIsForgottenExactly | apps/web/src/canonical.ts:214-291 | the order of a manifest does not reach its canonical form if and only if elements with equal keys have equal canonical forms |
| ManifestTexts.TextsAreLawful | apps/web/src/canonical.ts:64-119 | the canonical text of a list or an object tells apart exactly what those of its parts tell apart |
| ManifestRefusal.HashedStaysSeen | apps/web/src/canonical.ts:64-305 | where canonicalization of the digest payload throws in one order of the manifest, it throws in every order |
| ManifestHashing.DigestsForgetOrderExactly | apps/web/src/canonical.ts:64-316 | the order of a manifest does not reach the text that either digest hashes if and only if elements with equal keys have canonical forms with equal canonical texts, or that text does not exist |
| ManifestHashing.SpellingsReachNoDigest | apps/web/src/canonical.ts:27-102 | two constraints under one key that differ in the spelling of a text: their order shows in the canonical manifest and in no digest |
| ArmScopes.ContainsIsSegmentPrefix | src/athena_context/wc029_preflight.py:138-145 | containment holds exactly for the root or a prefix of the segment list |
| ArmScopes.ContainsAntisymmetric | src/athena_context/wc029_preflight.py:138-145 | scopes that contain each other are the same up to trailing slashes |
| ArmScopes.ContainsTransitive | src/athena_context/wc029_preflight.py:138-145 | containment is transitive |
| ArmScopes.ComparableIffOverlapping | src/athena_context/wc029_preflight.py:800-808 | one of two scopes contains the other exactly when something lies in both |
| ArmScopes.TypeOfChainIsSettled | src/athena_context/wc029_preflight.py:91-120 | what the scan returns for any chain of provider blocks with types, whatever their types, resources and scope are called |
| ArmScopes.TypeOfChain | src/athena_context/wc029_preflight.py:91-120 | it returns namespace and types of the last block if and only if no type of it that the scan sees is called "providers" |
| ArmScopes.ResourceTypeOfRendered | src/athena_context/wc029_preflight.py:91-120 | the same, both ways, of the rendered identifier in any case |
| ArmScopes.TypeCalledProvidersMisleads | src/athena_context/wc029_preflight.py:91-120 | under any scope and any names, a second type called "providers" gives another type |
| ArmScopes.EarlierBlocksDoNoHarm | src/athena_context/wc029_preflight.py:91-120 | under any scope and any names, types called "providers" in an earlier block do not matter |
| PreflightWalks.ValidateJsonShape | src/athena_context/wc029_preflight.py:188-209 | the stack walk accepts exactly values of height at most 64 and at most 100000 nodes with clean strings |
| PreflightWalks.WithinIsHeight | src/athena_context/wc029_preflight.py:188-209 | bounding the depth of every visited node is bounding the height |
| PreflightWalks.FlattenAfter | src/athena_context/wc029_preflight.py:340-355 | the stack walk returns exactly the leaves in recursive pre-order with their paths |
| PreflightWalks.LeavesEverywhere | src/athena_context/wc029_preflight.py:340-355 | a condition on all returned leaves is the condition at every nesting depth |
| WhatIf.WalkDelta | src/athena_context/wc029_preflight.py:276-337 | the stack walk over delta items returns exactly the recursive pre-order, and fails exactly when that does |
| WhatIf.UnsafePropertyViolations | src/athena_context/wc029_preflight.py:364-519 | the appended violations are those of each candidate in order |
| WhatIfEvaluation.EvaluateWhatIf | src/athena_context/wc029_preflight.py:522-589 | the loop over changes reports what each change deserves, in order |
| WhatIfWords.RequireExactly | src/athena_context/wc029_preflight.py:148-156 | a required text is that of the first field of the name in any case, bounded, without the white space around it |
| WhatIfDelta.CandidatesExactly | src/athena_context/wc029_preflight.py:262-355 | the candidates are exactly what the change proposes: each nested delta item under the path of its parents, and each leaf of the payload |
| WhatIfDelta.DeltaReadableExactly | src/athena_context/wc029_preflight.py:262-337 | and can be collected exactly when every item, at every depth, says what has to be known of it |
| WhatIfPolicy.CandidateExactly | src/athena_context/wc029_preflight.py:447-519 | which settings no change may open or remove, and the code each is reported with |
| WhatIfPolicy.ProtectionExactly | src/athena_context/wc029_preflight.py:380-446 | what a created resource must state of itself, the last statement counting |
| WhatIfReports.WordsDecide | src/athena_context/wc029_preflight.py:522-576 | `nochange` is not reported; `ignore`, `delete`, `deploy` and any unknown word are, each with its own code and the resource's identifier |
| WhatIfReports.ReviewDecides | src/athena_context/wc029_preflight.py:577-589 | a create or modify is reported if it is not on the allowlist, and for what it proposes |
| WhatIfReports.ReportedByWords | src/athena_context/wc029_preflight.py:522-589 | exactly what the changes of a document deserve is reported |
| WhatIfReports.NothingReportedByWords | src/athena_context/wc029_preflight.py:522-589 | nothing is reported exactly when every change is called `nochange`, or is an allowlisted create or modify with nothing unsafe at any depth |
| WhatIfReports.ChangesExactly | src/athena_context/wc029_preflight.py:239-259 | where the changes of a document stand, and that it must be a succeeded result without an error |
| WhatIfReports.EvaluatedExactly | src/athena_context/wc029_preflight.py:188-259 | exactly which documents are evaluated and not rejected |
| RoleAssignments.EvaluateRoleAssignments | src/athena_context/wc029_preflight.py:713-816 | the loops report what each assignment deserves, in order |
| RoleAssignments.TouchingIsSharing | src/athena_context/wc029_preflight.py:800-808 | a separation rule's scope test fires exactly on shared ground |
| RoleAssignments.BroadExactly | src/athena_context/wc029_preflight.py:37-48 | which scopes are broad, by their texts |
| RoleAssignments.GrantedExactly | src/athena_context/wc029_preflight.py:713-770 | which role an assignment grants, by the ends of its role name and role id; none if they contradict each other or are both missing |
| RoleAssignments.ReportedExactly | src/athena_context/wc029_preflight.py:787-816 | what an assignment is reported for |
| RoleAssignments.UnreportedExactly | src/athena_context/wc029_preflight.py:713-816 | an assignment goes unreported exactly when it grants a role, the role is not too broad, and no rule shares ground with it |
| RoleAssignments.NoViolationExactly | src/athena_context/wc029_preflight.py:713-816 | a document is evaluated without violation exactly when each of its assignments is harmless in that sense |
| RoleAssignments.NameOrIdIsTheSame | src/athena_context/wc029_preflight.py:713-816 | a built-in role is judged alike by name, by definition id, or by both |
| PresentationContract.UniqueAndSorted | src/athena_context/contracts/presentation.py:255-265 | being the sorted set of one's own elements is having no duplicate and being sorted |
| PresentationContract.SortedSetIsSortedSet | src/athena_context/presentation.py:447-454 | the sorted evidence identifiers are exactly those collected, and meet the contract's own test |
| PresentationParser.RefsRead | apps/presentation-web/src/contracts.ts:636-655 | the browser accepts exactly the reference lists the Python contract accepts |
| PresentationParser.FindingsRead | apps/presentation-web/src/contracts.ts:621-678 | and exactly the same finding lists |
| PresentationParser.ParserReadsDocuments | apps/presentation-web/src/contracts.ts:185-242 | the parser returns p exactly for the document of p, when p meets every Python validator but the digest check and its version has at most 128 characters |
| PresentationParser.DerivationsFollowThePhase | apps/presentation-web/src/derivations.ts:21-75 | on every accepted document both derivations succeed and the phase alone decides them |
| PresentationProjection.CiteAll | src/athena_context/presentation.py:248-272 | the loops resolve each reference to the one virtual machine with its digest, or fail exactly when that is impossible |
| PresentationProjection.OperationalFinding | src/athena_context/presentation.py:213-287 | the one operational finding and its machines in order of identifier, exactly when there is one |
| PresentationProjection.PlaceRecords | src/athena_context/presentation.py:308-318 | the loop fills the name table and the group set, or fails at the first repeated name or malformed identifier |
| PresentationProjection.ProjectArgusPresentation | src/athena_context/presentation.py:392-530 | the projection with its patched result digest is the specified one |
| PresentationSource.CitedExactly | src/athena_context/presentation.py:248-272 | references are resolved exactly when each is one of the snapshot's and cites the only record of its digest, a virtual machine |
| PresentationSource.OperationalExactly | src/athena_context/presentation.py:213-287 | the operational finding is found exactly when there is one such finding, about the web service in its own scope, with two or more different references |
| PresentationSource.AgreedExactly | src/athena_context/presentation.py:290-389 | receipt, phase and machines agree exactly when the receipt is timely, its target is among machines of one group with the eligible names, and all machines run, or all but a faulted target |
| PresentationSource.PayloadSays | src/athena_context/presentation.py:392-530 | what an emitted payload says of each part of its source: every identifier is that of its own text, digests and counts are its own, and the evidence is the references and the receipt, ascending |
| PresentationProjection.EmittedExactly | src/athena_context/presentation.py:392-530 | once finding, receipt and phase agree, exactly when a payload is emitted |
| PresentationProjection.NinetyNineFit | src/athena_context/presentation.py:447-454 | ninety-nine references always leave room for the receipt |
| PresentationProjection.FaultIsTheTarget | src/athena_context/presentation.py:364-377 | in a faulted presentation exactly one machine is down, and it is the receipt's target in the receipt's state |
| PresentationProjection.EmittedIsRead | apps/presentation-web/src/contracts.ts:494-517 | the browser reads an emitted payload back unchanged, or refuses it exactly when its version has more than 128 characters |
| PresentationProjection.LongVersionsAreRefused | apps/presentation-web/src/contracts.ts:494-517 | any emitted payload, given a 129-character version, is still emitted and then refused |
| PresentationProjection.EmittedIsDerived | apps/presentation-web/src/derivations.ts:21-53 | with the words really used, what is emitted is read and derived as its phase says |

## Left out

- Cloud SDK calls, credentials, key vaults, token checks, RSA and SHA-256 themselves, base64, byte bounds
  of downloads, the HTTP server, subprocesses and files: only their outcomes appear.
- Feed v2, guidance, enrichment and report checks of the gateway, the React interface, the command lines
  and the configuration: wiring, or field checks of documents made elsewhere.
- Golden evaluation and the reviewed-collector contracts, which are conjunctions of independent field checks.
- A blob's version id and etag are one fresh stamp, and a process reads the index snapshot and builds its
  request in one step; the calls that follow are interleaved freely.
- PublicationRetry.RetryConverges: for a live publication the retry ends with the same contents rather than
  the same stamps, because the manifest is overwritten unconditionally.
- Digests are compared as numbers where the code sorts their hexadecimal text.
- The reader behind the gateway is modelled with the digests of what it returns; transport faults of
  readers are outside the linearization theorems.
- Process termination and signals in the middle of the operator's run, which its error handling does not
  see either; the two model constructions at src/athena_context/operational_demo_operator.py:815-846 and the
  clock calls are taken not to raise (`PhaseInputsAreValid` proves the first of them).
- The operator's clock is taken not to run backwards and a sleep to last as asked.
- What an evaluation computes from a snapshot and what verifying its contents decides are ports of the saga.
  Only the verification may end in an exception that is no operator error: the other ports are called
  inside handlers for every exception (src/athena_context/operational_demo_operator.py:745-769 is one).
- MonitoringCoverage.ListedDigestsResolve: assumes of the reviewed controls that no log query is of the
  platform-health family, as their own contract says.
- NFC, Unicode case folding, number formatting, the spelling of property names and the version pattern are
  functions with stated laws; equal digests are equal hashed texts;
  `new Date` is read as taking one or two fraction digits for decimals of a second.
- Manifests are values here, so filling and sorting in place and aliasing between their parts are not
  captured; the lists named by the manifest type are taken to hold objects.
- One error value stands for all error messages of a component.
- The Python length bounds on the summary, issue and action of a payload are not
  repeated, because other validators fix these three texts.
- PresentationParser.ParserReadsDocuments: numbers are integers, so a JSON spelling such as 2.0, which the
  browser reads as an integer and strict Python refuses, does not appear; nor do the Python field names
  that the model accepts beside its aliases, which the projection never writes.
- The verification capability that wraps an evaluation result is taken to hold its result; the resource
  group and name of an identifier come from a function without laws.
