# Verified model of the network planning backend and its workbook and report utilities

The repository simulates radio coverage of city scenes and searches for better antenna settings.
This project models its algorithms and proves what they promise. It holds:

- the leased job queue of the simulation workers: the row and its store (`JobRow`, `JobStore`), what
  each call leaves of a row (`JobOutcomes`), any interleaving of workers, heartbeat threads, API
  calls and lease recovery over one table (`JobProtocol`, `JobRuns`), how jobs end in it
  (`JobEndings`), the races that its unlocked reads leave open (`JobRaces`) and schedules in which
  they happen (`JobSchedules`), the lease arithmetic over time (`LeaseTiming`) and what it means for
  runs (`LeaseRuns`);
- the antenna optimizer: legal settings (`AntennaSettings`), the grid of configurations
  (`SearchGrid`), candidates and their cost (`Candidates`), the request builder (`RequestBuilder`),
  objectives, guardrails and the rank (`CandidateRanking`) and what the rank orders (`GoalFit`), the
  three candidate generators (`CandidateGenerators`) and the order in which they visit settings
  (`SearchOrder`), the diverse beam (`DiverseBeam`), the run itself, from its state and exploration
  over its refinement to its report (`OptimizationState`, `BeamRefinement`, `CoverageOptimizer`),
  and what the report guarantees and recommends (`OptimizerGuarantees`, `RecommendationOrder`);
- the Halton sampling behind its exploration: the bases (`Primes`), one dimension (`Halton`), all
  dimensions together (`JointSampling`) and what that means for the search (`GlobalExploration`);
- the coverage KPIs (`Kpis`) and what they say about the cells (`KpiMeaning`);
- the building mesh of a scene: boundary weights of polygons and triangle lists (`Boundary`), ear
  clipping (`Triangulation`, `EarClipping`), projection and extrusion (`BuildingMesh`);
- the `.xlsx` container: CRC-32 (`Crc32`), record layouts (`ZipFormat`), writer and reader
  (`ZipArchive`), every field of a written archive (`ZipFields`), the round trip (`ZipRoundTrip`), the
  reader on archives of any origin (`ZipReader`), cell references (`CellReference`);
- the run-length encoding of the report's heatmap (`Heatmap`).

`Wrappers`, `Arithmetic` and `StableSort` are shared helpers. `dafny verify dfyconfig.toml` checks
everything.

Arithmetic is exact. Angles and powers are integers in millionths, so the source's `round(x, 6)` and
`math.isclose` become equality (the rounding of a candidate's cost, which is not exact even so, is
written out); geometry, KPIs and times are reals. The simulator is an arbitrary partial function of
the antennas, the conversion from dBm to milliwatts an arbitrary function, and the decompressor of
the ZIP reader an arbitrary partial function.

Where the source loops over state, the model has a method with that loop, proved equal to a function
or against the property itself; the theorems are about those functions, or about runs built from the
methods' proved effects (`JobRuns.StepsAreStoreCalls` ties the two together for the queue).

## What the proofs say about the code

Most promises hold as they stand. Where one does not, the model keeps the code, states exactly when it
holds, and gives a case in which it does not:

- A heartbeat reads a row without a lock and writes the lease later. Ownership survives this in every
  run (`JobRuns.RowsAlwaysConsistent`), but "a lease exactly while running" holds if and only if no such
  write lands on a row that has stopped running (`JobRuns.LeaseExactlyWhileRunning`), and one can
  (`JobSchedules.StrayBeatHappens`).
- A progress update reads and writes the same way, within one call of its worker. "A succeeded row keeps
  its result document" holds if and only if no progress write lands on a succeeded row
  (`JobRuns.SucceededKeepsItsDocument`). One does if and only if, within the call, recovery takes the row
  from the worker and another worker finishes the job (`JobRaces.StrayProgressOnlyAfterRecovery`), which
  can happen (`JobSchedules.StrayProgressHappens`). Everything else that tells how a job ended is frozen
  (`JobRuns.EndedRowIsFrozen`).
- Saving a result checks for a recorded run, stores one and records it later. It replaces a recorded run
  if and only if another save recorded one after that check (`JobRaces.SaveReplacesOnlyConcurrentSave`,
  `JobSchedules.SavedRunIsReplaced`).
- Deleting checks the status without a lock. It removes a running job if and only if the job was claimed
  after the check by an attempt that still holds it (`JobRaces.DeletesRunningOnlyIfClaimedMeanwhile`,
  `JobSchedules.RunningJobDeleted`).
- Single missed heartbeats are survived if and only if two heartbeat intervals fit the lease. Only a
  configuration with a lease of one second and an interval over half a second does not meet this
  (`LeaseTiming.SingleMissesSurvivedIff`, `LeaseTiming.OneMissLosesTheJob`). In runs, a job whose
  heartbeats keep time stays with its worker (`LeaseRuns.TimelyWorkerKeepsItsJob`).
- The heatmap's rectangles are disjoint if and only if no two cells share a position
  (`Heatmap.DisjointIffDistinct`).
- The recommended setup satisfies every guardrail if and only if all guardrail KPIs of the starting
  setup are defined (`OptimizerGuarantees.RecommendationKeepsGuardrails`), which a grid without
  readings shows can fail (`OptimizerGuarantees.GuardrailsCanFail`).

The stop reason "search_space_exhausted" guarantees that everything was tried if the grid fits the
budget. For a larger grid it guarantees that all admissible neighbours of the frontier to which the
rounds had led were tried (`OptimizerGuarantees.ExhaustedSearchSpaceMeans`).

`createZip` is private and its only caller passes seven files (`antennaTemplate.js`, lines 53-74), so its
16-bit count never wraps in use. Its contract is still stated for lists of any length: reading back gives
the number of files modulo 65536 (`ZipRoundTrip.UnzipReadsWhatIsCounted`), so all of them if and only if
there are fewer than 65536 (`ZipRoundTrip.RoundTripIffCountFits`).

## Model

| member | source | states |
|---|---|---|
| JobStore.SimulationJob.Claim | backend/services/simulation_job_store.py:292-302 | a claim starts a new attempt: running, attempts plus one, owner and lease set, retry time cleared; nothing else of the row changes |
| JobStore.SimulationJob.AskCancel | backend/services/simulation_job_store.py:356-379 | a queued job is cancelled at once, a running one only flagged, an ended one keeps its outcome |
| JobStore.SimulationJob.Recover | backend/services/simulation_job_store.py:414-436 | an expired attempt ends cancelled if asked to, failed if it was the last, and is queued again otherwise; the lease goes in every case |
| JobStore.SimulationJob.FailAttempt | backend/services/simulation_job_store.py:515-544 | the job is cancelled if and only if that was requested, otherwise queued again if and only if the failure is retryable and attempts are left, otherwise failed; kind, message and document as reported, and a retry due after the base delay doubled with each earlier attempt, up to the cap |
| JobStore.SimulationJob.Finish | backend/services/simulation_job_store.py:578-605 | status, document, run, message and kind are as reported, unless a requested cancellation overrides an ending that is none; then nothing of the report is recorded |
| JobStore.Store.Add | backend/services/simulation_job_store.py:77-104 | a new row is queued with no attempt, all other rows unchanged |
| JobStore.Store.SelectNextClaim | backend/services/simulation_job_store.py:271-290 | finds a ready unlocked row of the highest priority, oldest first, exactly when there is one |
| JobStore.Store.ClaimNext | backend/services/simulation_job_store.py:265-314 | the table changes by one claim and in no other way, or not at all; no other ready unlocked row has a higher priority, or the same and waited longer |
| JobStore.Store.Heartbeat | backend/services/simulation_job_store.py:317-332 | renews the lease from now on exactly when the caller owns the running row, and reports which |
| JobStore.Store.IsCancelRequested | backend/services/simulation_job_store.py:335-342 | lets the caller go on exactly when the row is running, the caller's, and not asked to cancel, changing nothing |
| JobStore.Store.RequestCancellation | backend/services/simulation_job_store.py:345-392 | the effect of the cancel call on the table, and its answer |
| JobStore.Store.SelectExpired | backend/services/simulation_job_store.py:402-413 | exactly the unlocked running rows whose lease has run out |
| JobStore.Store.RecoverExpired | backend/services/simulation_job_store.py:395-439 | every unlocked row whose lease has run out ends or is queued again, no other row changes, and the count is returned |
| JobStore.Store.UpdateProgress | backend/services/simulation_job_store.py:442-451 | progress is written only for a caller allowed to update the row |
| JobStore.Store.HandleFailure | backend/services/simulation_job_store.py:493-553 | a failure report changes the row only for its owner: cancelled, queued again or failed as for a single row |
| JobStore.Store.UpdateFinished | backend/services/simulation_job_store.py:556-608 | an outcome is recorded only for the row's owner, as reported unless a cancel request overrides it |
| JobStore.Store.RecordSavedRun | backend/services/simulation_job_store.py:637-688 | the run of a saved result is recorded on its row |
| JobStore.Store.Delete | backend/services/simulation_job_store.py:697-744 | the row goes unless it is missing or running |
| JobOutcomes.EventOutcome | backend/services/simulation_job_store.py:265-608 | claims, cancel calls, recovery, failure reports and endings, told column by column: which rows they act on, which status follows, what is recorded and what stays |
| JobOutcomes.RetriesDouble | backend/services/simulation_job_store.py:895-897 | the first retry waits the base delay and each further one twice as long, until the cap |
| JobProtocol.RowInvKept | backend/services/simulation_job_store.py:265-608 | every legitimate write keeps the row invariant: a worker exactly while running, finished exactly in terminal states, attempts equal to the claims and within the limit, a queued row never out of attempts, cancelled only when asked, a run only when succeeded, and one outcome at most, from the newest claim, where a write that alters an already ended row would count as another |
| JobProtocol.EventsAreLegitimate | backend/services/simulation_worker.py:157-233 | the workers' control flow produces only legitimate writes: outcomes come from the current attempt, a worker's own cancellation only after a request |
| JobProtocol.WorkersKept | backend/services/simulation_worker.py:125-233 | a worker's attempt is a recorded claim, and while it owns the row it is the newest one |
| JobProtocol.StepKeepsInv | backend/services/simulation_worker.py:125-346 | every step of every interleaving keeps the system invariant |
| JobRuns.StepsAreStoreCalls | backend/services/simulation_job_store.py:265-744 | a protocol step does to the table what the store method of that name was proved to do |
| JobRuns.RowsAlwaysConsistent | backend/services/simulation_job_store.py:265-608 | the row invariant holds in every state of every run |
| JobRuns.TerminalIsForever | backend/services/simulation_job_store.py:371-379 | a terminal status never changes |
| JobRuns.SingleOutcome | backend/services/simulation_job_store.py:493-608 | at most one outcome is ever committed for a job: once it has one, no write of the run ends its row again or alters it under an ending write |
| JobEndings.WorkersEndAsReported | backend/services/simulation_worker.py:212-245 | in every run a worker's ending step records what it reports on the row it owns |
| JobEndings.CallsActOnRows | backend/services/simulation_job_store.py:265-439 | in every run claims, cancel calls and recovery passes do exactly that to the rows they reach |
| JobEndings.FailedForAReason | backend/services/simulation_job_store.py:421-544 | a failed job has used all its attempts, or one of them reported a failure that is not retryable |
| JobEndings.SucceededAsReported | backend/services/simulation_job_store.py:556-608 | a succeeded job was reported so by the worker that owned it, without a cancel request, and holds that report's document unless a late progress write followed |
| JobRuns.EndedRowIsFrozen | backend/services/simulation_job_store.py:345-608 | once a row has ended, status, attempts, failure, message and times never change in the rest of the run; its result only through a late progress write, its saved run only through a save call, its lease only through a late heartbeat |
| JobRuns.LostLeaseStaysLost | backend/services/simulation_job_store.py:900-903 | an attempt that no longer holds its row never holds it again |
| JobRuns.FencedOut | backend/services/simulation_job_store.py:900-903 | after that, nothing the attempt writes changes the table |
| JobRuns.LateWritesKeepOwnership | backend/services/simulation_job_store.py:317-332 | the write of a heartbeat or progress call that read the row earlier never touches owner, status, attempts or outcome |
| JobRuns.CancellationIsIrrevocable | backend/services/simulation_job_store.py:421-424 | once cancellation is requested the job can only run on or be cancelled; it is never queued or claimed again |
| JobRuns.CancelledOnlyOnRequest | backend/services/simulation_worker.py:278-284 | every cancelled job was asked to cancel, although the worker's check also says stop when ownership is lost |
| JobRuns.RankDecreases | backend/services/simulation_job_store.py:275-300 | twice the attempts left plus one while running, zero when ended, strictly decreases at every status change |
| JobRuns.StatusChangesAreBounded | backend/services/simulation_job_store.py:421-544 | a job changes status at most twice per allowed attempt, in every run |
| JobRuns.QueuedWaitsOnlyForItsRetryTime | backend/services/simulation_job_store.py:271-290 | a queued job is claimable exactly from its retry time on |
| JobRuns.BackoffIsMonotoneAndCapped | backend/services/simulation_job_store.py:895-897 | the backoff starts at the base delay, never shrinks and never exceeds its cap |
| JobRuns.LeaseExactlyWhileRunning | backend/services/simulation_job_store.py:317-332 | in every state rows carry a lease exactly while running, if and only if no heartbeat write was stray |
| JobRuns.SucceededKeepsItsDocument | backend/services/simulation_job_store.py:442-463 | in every state succeeded rows hold their document, if and only if no progress write was stray |
| JobRaces.StrayProgressOnlyAfterRecovery | backend/services/simulation_worker.py:176-212 | every progress write goes back to a read that found the row held by the writing attempt, and it lands on a succeeded row if and only if in between recovery took the row from that attempt and another worker finished the job |
| JobRaces.SaveReplacesOnlyConcurrentSave | backend/services/simulation_job_store.py:611-694 | every save goes back to a check that found the job succeeded and without a run; it replaces a recorded run if and only if another save recorded one after that check |
| JobRaces.DeletesRunningOnlyIfClaimedMeanwhile | backend/services/simulation_job_store.py:697-744 | every deletion goes back to a status check, and removes a running job if and only if the job was claimed after that check by an attempt that still holds it |
| JobSchedules.RunningJobDeleted | backend/services/simulation_job_store.py:697-744 | a run in which a running job is deleted, for every job and worker |
| JobSchedules.StrayBeatHappens | backend/services/simulation_job_store.py:317-332 | a run whose late heartbeat write lands on an ended job, so that rows no longer carry a lease exactly while running |
| JobSchedules.StrayProgressHappens | backend/services/simulation_worker.py:176-233 | a run in which a worker is stopped inside a progress call until its lease has run out, another worker takes the job over and succeeds, and the late write costs the succeeded job its document |
| JobSchedules.SavedRunIsReplaced | backend/services/simulation_job_store.py:611-694 | a run in which two save calls both record a run, the second in place of the first |
| LeaseTiming.GetSettings | backend/core/config.py:50-71 | for every environment the heartbeat interval fits the lease, twice from a two-second lease on, and the attempt limit is positive |
| LeaseTiming.SettingsAsConfigured | backend/core/config.py:50-71 | settings are used as configured, with their defaults and least values; the interval is cut down only when it is over a second and over half the lease |
| LeaseTiming.TimelyOwnerKeepsItsRow | backend/services/simulation_job_store.py:404-409 | an owner whose heartbeats keep time is never recovered, with one missed beat between two good ones when the lease spans two intervals |
| LeaseTiming.ClaimedJobSurvives | backend/services/simulation_worker.py:330-346 | the same from the claim on, for every configuration; with single misses when two intervals fit the lease |
| LeaseTiming.OneMissLosesTheJob | backend/core/config.py:50-71 | when they do not fit, a single missed heartbeat loses the job to a recovery, whatever the job and the time |
| LeaseTiming.SingleMissesSurvivedIff | backend/core/config.py:50-71 | for every environment all schedules with single misses keep the job if and only if two intervals fit the lease, that is, if the lease has two seconds or the interval at most half a second |
| LeaseTiming.OneSecondLeaseToleratesNoMiss | backend/core/config.py:59-62 | a configuration that sets only a lease of one second gets an interval of one second, and does not survive single misses |
| LeaseRuns.LostOnlyWhenLate | backend/services/simulation_job_store.py:395-439 | in every run an attempt that neither ends itself nor is deleted loses its row only to a recovery pass more than a lease after its last heartbeat |
| LeaseRuns.TimelyWorkerKeepsItsJob | backend/services/simulation_worker.py:330-346 | for every configuration and run a claimed job whose heartbeats are at most an interval apart, or two if two fit the lease, is held by its attempt until that reports an outcome or the row is deleted |
| AntennaSettings.RangedValues | backend/services/optimization_service.py:801-820 | the current value, then ring by ring the values whole steps away, upper before lower, then the ends of the range if still missing; none twice |
| AntennaSettings.RangedListIsStepGrid | backend/services/optimization_service.py:801-820 | these are exactly the values of the step grid, so the final removal of duplicates has nothing to do |
| AntennaSettings.LimitParameterChange | backend/services/optimization_service.py:759-769 | keeps, in their order, exactly the values within the limit, the shorter way round for azimuth |
| AntennaSettings.CandidateValuesForField | backend/services/optimization_service.py:746-756 | exactly the legal values of a field, near before far |
| AntennaSettings.OptimizationDimensions | backend/services/optimization_service.py:336-348 | one dimension for each chosen field of each eligible antenna, in order, listing its legal values in increasing order |
| AntennaSettings.DimensionsAreUnique | backend/services/optimization_service.py:336-348 | a request has only one list of dimensions |
| AntennaSettings.MutationIsLegal | backend/services/optimization_service.py:528-540 | moving one chosen field to another of its values keeps settings legal |
| RequestBuilder.BuildCandidateRequest | backend/services/optimization_service.py:626-728 | accepts exactly known antennas with values in range; then moves those antennas and no others and lists what changed, field by field; otherwise the error of the first check that fails, unknown antennas before any range |
| RequestBuilder.BuilderRoundTrip | backend/services/optimization_service.py:626-736 | the builder never rejects legal settings, and the settings of the request it builds are the ones put in |
| RequestBuilder.BuilderReportsTheCandidatesChanges | backend/services/optimization_service.py:587-728 | for legal settings the builder lists the same changes as the candidate does, in antenna order instead of sorted order |
| SearchGrid.ChoiceIsCombination | backend/services/optimization_service.py:359-364 | every choice of one value per dimension is a combination of the product |
| SearchGrid.CombinationInjective | backend/services/optimization_service.py:359-364 | no combination comes twice |
| SearchGrid.GridPointIsLegal | backend/services/optimization_service.py:361-364 | every combination gives legal settings |
| SearchGrid.LegalIsGridPoint | backend/services/optimization_service.py:361-364 | all legal settings are combinations |
| SearchGrid.NumberOf | backend/services/optimization_service.py:36-39 | legal settings, the starting ones included, have exactly one number in the product |
| Candidates.BaselineIsAdmissible | backend/services/optimization_service.py:772-790 | the starting setup meets its own rules |
| Candidates.AllowedMeans | backend/services/optimization_service.py:772-798 | the rules hold exactly when no more antennas than the cap are moved and, where asked for, total power is no more than now |
| Candidates.ParameterChanges | backend/services/optimization_service.py:587-601 | the change list, antenna by antenna in sorted order and field by field |
| Candidates.ChangesLoseNothing | backend/services/optimization_service.py:587-611 | the recorded changes applied to the starting settings give the candidate's settings |
| Candidates.ParameterCandidate | backend/services/optimization_service.py:587-611 | a candidate carries its settings and exactly the changes that lead to them |
| Candidates.CandidateChangeCost | backend/services/optimization_service.py:246-263 | the cost of a change list |
| Candidates.MagnitudeOfChange | backend/services/optimization_service.py:246-263 | a change counts relative to 20 degrees or dBm, an azimuth change the shorter way round relative to half a turn |
| Candidates.RoundingIsNearest | backend/services/optimization_service.py:246-263 | rounding goes to the nearest millionth, at halves to the even one |
| Candidates.CostCountsChangedAntennas | backend/services/optimization_service.py:246-263 | the cost counts exactly the antennas that the cap limits, and is zero only for the starting setup |
| CandidateRanking.ScoreMeasuresShortfall | backend/services/optimization_service.py:911-932 | the score is zero for passing values, zero otherwise only at the excluded end of a strict target, and never more than the distance to any passing value |
| CandidateRanking.EvaluateGuardrails | backend/services/optimization_service.py:285-314 | one verdict per guardrail, in order: passed if and only if both KPIs are defined and covered area or a tenth percentile has fallen, or uncovered area, overlap area or average overlap has risen, by at most the limit |
| CandidateRanking.GuardrailsPassIff | backend/services/optimization_service.py:285-314 | all guardrails pass exactly when all limits are kept |
| CandidateRanking.EvaluationSucceedsIff | backend/services/optimization_service.py:55-77 | a trial succeeds if and only if the simulation returned cells, all of them well formed, and the objectives are ones that the request validators let through |
| CandidateRanking.SelfComparison | backend/services/optimization_service.py:293-305 | a setup compared with itself passes exactly when all its guardrail KPIs are defined |
| CandidateRanking.UndefinedBaselineFailsAll | backend/services/optimization_service.py:297-299 | an undefined KPI of the starting setup fails every candidate |
| CandidateRanking.RankIsTotalOrder | backend/services/optimization_service.py:221-238 | ranks, infinite gaps included, are totally ordered; what they order is `GoalFit.RankIsGoalFit` |
| CandidateRanking.PassingHasNoGap | backend/services/optimization_service.py:221-238 | meeting all objectives means no gap and no failure, and conversely no failure means meeting all |
| CandidateRanking.PassingCandidatesOrderedByCost | backend/services/optimization_service.py:221-238 | a passing candidate is outranked only by passing ones with cheaper changes |
| GoalFit.EvaluationsMeasured | backend/services/optimization_service.py:841-938 | every objective's value is its KPI, share or percentile of the cells; an objective passes exactly when the value meets its target; the gap is the sum of shortfalls, over 10 for overlap, RSRP and SINR percentiles and over 100 otherwise |
| GoalFit.RankIsGoalFit | backend/services/optimization_service.py:221-243 | the rank prefers kept guardrails, then met objectives, then the smaller total shortfall, then fewer missed objectives, then fewer changed antennas, then smaller changes |
| Primes.TrialDivisionDecides | backend/services/optimization_service.py:443 | dividing by the known primes up to the square root decides primality |
| Primes.PrimeFrom | backend/services/optimization_service.py:442-445 | there is always a larger prime, so the loop ends |
| Primes.FirstPrimes | backend/services/optimization_service.py:439-446 | exactly the first primes, in order |
| Halton.ComputeRadicalInverse | backend/services/optimization_service.py:449-456 | the loop computes the mirrored digit expansion |
| Halton.SampleIsMirroredIndex | backend/services/optimization_service.py:449-456 | a sample is the index with its digits mirrored behind the radix point, the lowest digit counting most |
| Halton.InUnitInterval | backend/services/optimization_service.py:449-456 | every sample lies in [0, 1) |
| Halton.RadicalInverseInjective | backend/services/optimization_service.py:449-456 | no two indices share a sample |
| Halton.StratifiedSampling | backend/services/optimization_service.py:449-456 | any base^k consecutive samples hit each of the base^k cells exactly once |
| Halton.EveryValueIsSampled | backend/services/optimization_service.py:426-433 | every value of a dimension is sampled within base^k samples once base^k is at least twice its size |
| JointSampling.JointResidue | backend/services/optimization_service.py:422-427 | for different prime bases the cells of all dimensions together are one residue class |
| JointSampling.JointStratifiedSampling | backend/services/optimization_service.py:422-435 | consecutive samples, as many as there are boxes, hit each box of all dimensions exactly once |
| JointSampling.EveryCombinationIsSampled | backend/services/optimization_service.py:422-435 | among them is one that selects any chosen value in every dimension at once |
| GlobalExploration.EveryChoiceIsSampled | backend/services/optimization_service.py:422-435 | so every configuration of the grid is a sample of each full period |
| GlobalExploration.ShortExplorationIsComplete | backend/services/optimization_service.py:422-436 | exploration whose attempts covered a period has met every admissible setup |
| CandidateGenerators.ExhaustiveCandidates | backend/services/optimization_service.py:351-378 | the candidates are the first new admissible combinations of the product, in its order and at most the limit; with room for all points but the starting one, no admissible setup is left out |
| CandidateGenerators.AnchorCandidates | backend/services/optimization_service.py:408-419 | the candidates are the new admissible settings among the five range anchors, in their order, until the limit |
| CandidateGenerators.AnchorsSpanRanges | backend/services/optimization_service.py:408-415 | the anchors are the lowest, highest and middle values of all dimensions, and the two alternations of lowest and highest |
| CandidateGenerators.SampleValues | backend/services/optimization_service.py:426-433 | a sample selects, in each dimension, the value its own prime base points to |
| SearchOrder.SampleSelects | backend/services/optimization_service.py:424-432 | in each dimension the selected place is the sample times the number of values, rounded down |
| CandidateGenerators.GlobalCandidates | backend/services/optimization_service.py:381-436 | the candidates are the first new admissible settings among the anchors and then the samples, in order; if they are fewer than asked for, all anchors and all samples of the attempt budget were tried |
| CandidateGenerators.NearbyParameterValues | backend/services/optimization_service.py:573-584 | exactly the values at most the radius away in the list, near before far, without the current one |
| SearchOrder.AboveBeforeBelow | backend/services/optimization_service.py:573-584 | each ring has the value above before the value below |
| CandidateGenerators.ParameterMutations | backend/services/optimization_service.py:548-570 | exactly the one-field moves to nearby legal values, dimension after dimension in turn |
| CandidateGenerators.Interleave | backend/services/optimization_service.py:566-570 | one value of every dimension in each round |
| SearchOrder.ColumnsGrow | backend/services/optimization_service.py:566-570 | all first values come before all second values, and so on |
| SearchOrder.ColumnGrows | backend/services/optimization_service.py:566-570 | within a round earlier dimensions come first |
| CandidateGenerators.ConsiderMutation | backend/services/optimization_service.py:524-542 | one turn of one parent: the mutation is taken, known or against the rules |
| CandidateGenerators.BeamCandidates | backend/services/optimization_service.py:499-545 | the candidates are the first new admissible settings in turn order: each parent's list is its nearby mutations turned by its own starting offset, and parents take turns; all are children of the frontier, and short output means no nearby mutation is left |
| SearchOrder.ChosenAreFirstNew | backend/services/optimization_service.py:381-436 | what is chosen from a list of points is exactly what is new and admissible, once each, in the order of first occurrence |
| SearchOrder.RotationStartsAtStride | backend/services/optimization_service.py:510-517 | parent number k starts k strides into its list, where the strides of all parents just cover the list |
| DiverseBeam.SettingsDistance | backend/services/optimization_service.py:483-496 | the loop computes the mean relative distance, skipping one-value dimensions |
| DiverseBeam.DistanceIsMetric | backend/services/optimization_service.py:483-496 | symmetric, not negative, zero to itself, triangle inequality |
| DiverseBeam.OneFieldApart | backend/services/optimization_service.py:483-496 | settings that differ in one dimension are that difference apart, as a share of its range and of the number of dimensions |
| DiverseBeam.DistancesAdd | backend/services/optimization_service.py:483-496 | dimensions contribute independently, so single differences determine the distance |
| DiverseBeam.NearestDistance | backend/services/optimization_service.py:468-475 | the distance to the nearest chosen node |
| DiverseBeam.Farthest | backend/services/optimization_service.py:466-479 | the first of the nodes farthest from the chosen ones |
| DiverseBeam.SelectDiverseBeam | backend/services/optimization_service.py:459-480 | all nodes in stable rank order if they fit; otherwise as many as the beam is wide, each taken once from the best-ranked pool, best-ranked first, spread as the greedy choice achieves |
| DiverseBeam.BeamPrefersRank | backend/services/optimization_service.py:459-465 | the beam starts with a node that no other ranks before, and its pool leaves out none that ranks before one in it |
| DiverseBeam.DiversityGuarantee | backend/services/optimization_service.py:459-480 | whatever separation that many nodes of the pool have, the selected ones have at least half of it |
| OptimizerGuarantees.FrontiersAreDiverse | backend/services/optimization_service.py:120-172 | every frontier of a report that was cut down to the beam width has at least half of any separation that as many nodes of its pool have |
| OptimizationState.OptimizationRun.RunCandidate | backend/services/optimization_service.py:46-89 | trying one candidate: only a failing starting setup is an error; trials, starting result and running best stay in step |
| OptimizationState.OptimizationRun.TestCandidates | backend/services/optimization_service.py:113-118 | candidates are tried in order until the budget is used, with a node for each success |
| OptimizationState.Explore | backend/services/optimization_service.py:94-118 | a grid that fits the budget is tried completely; otherwise the trials are, in order, the first new admissible anchors and samples, and exploration uses its share or has tried all its ideas |
| BeamRefinement.RefinementRound | backend/services/optimization_service.py:128-172 | a round tries new children, at most three per beam place and within the budget, fewer only when all admissible neighbours are used up; the improving nodes are exactly its successes that beat their parent, the next frontier is their diverse beam, and the pruned parents are those without an improving child; it stalls only when no trial of the round improves |
| BeamRefinement.PrunedHaveNoChild | backend/services/optimization_service.py:157-168 | pruned are exactly the frontier nodes that no improving node was derived from |
| BeamRefinement.RefineBeam | backend/services/optimization_service.py:127-172 | the loop ends by the budget left, after an unbroken chain of advancing rounds, each starting from the diverse beam of what improved in the one before; if it ends because a round finds nothing, all admissible neighbours of the frontier it had come to are tested; the pruned branches are those of all rounds |
| CoverageOptimizer.RunNetworkCoverageOptimization | backend/services/optimization_service.py:22-218 | fails exactly when the starting setup does; otherwise the report is true of its trials: all honest, admissible and pairwise different, within the planned total, the first best, request and result belonging to it, exploration in order, refinement from the diverse beam of all explored successes on with beam trials descending from earlier successes, pruned branches summed over the rounds, and each stop reason exactly when it applies |
| OptimizerGuarantees.EveryTrialKeepsTheRules | backend/services/optimization_service.py:746-820 | every trial keeps ranges, chosen fields, eligible antennas, change limits, the cap and the power rule, and the builder accepts it |
| OptimizerGuarantees.BestIsRankedFirst | backend/services/optimization_service.py:86-88 | the running best is the first of the stably sorted successes |
| OptimizerGuarantees.RecommendationAndAlternatives | backend/services/optimization_service.py:180-185 | the recommendation leads the ranking and the alternatives are the next three |
| RecommendationOrder.TrialsAreRightlyJudged | backend/services/optimization_service.py:51-84 | every successful trial carries the KPIs of its simulated grid, the right value for each objective, and guardrails passed exactly when every limit against the starting setup is kept |
| RecommendationOrder.RecommendationFitsBest | backend/services/optimization_service.py:86-88 | no trial keeps guardrails or meets objectives that the recommendation does not; among equal verdicts none has a smaller total shortfall, at the same shortfall none misses fewer objectives, and then none changes fewer antennas, or as many by less |
| RecommendationOrder.RecommendationKeepsLimits | backend/services/optimization_service.py:285-314 | the recommendation's guardrails passed if and only if every KPI stayed within its limit against the starting setup |
| RecommendationOrder.ChangesImproveFit | backend/services/optimization_service.py:221-243 | a recommendation other than the starting setup has strictly better verdicts, a smaller shortfall, or fewer missed objectives |
| RecommendationOrder.RankingFollowsOrder | backend/services/optimization_service.py:180-185 | the ranking behind the alternatives has no trial before one that should be recommended first |
| RecommendationOrder.RoundsImproveFit | backend/services/optimization_service.py:148-172 | a round that advanced has a trial that fits the goals better than its parent |
| OptimizerGuarantees.RecommendationKeepsGuardrails | backend/services/optimization_service.py:285-314 | the recommendation passes all guardrails if and only if the starting setup's guardrail KPIs are defined |
| OptimizerGuarantees.GuardrailsCanFail | backend/services/optimization_service.py:293-305 | for a request with one objective and one guardrail on signal strength, on a grid without readings, no recommendation satisfies the guardrail |
| OptimizerGuarantees.PassesIfAnyTrialPasses | backend/services/optimization_service.py:174-175 | it meets all targets if and only if some trial does, and the stop reason says so |
| OptimizerGuarantees.ChangesOnlyForBetterFit | backend/services/optimization_service.py:221-243 | changes are recommended only for a strictly better goal fit than the starting setup's |
| OptimizerGuarantees.CheapestPassingSetup | backend/services/optimization_service.py:266-273 | among trials that meet all targets it changes the fewest antennas, and those by the least |
| OptimizerGuarantees.CompleteSearches | backend/services/optimization_service.py:35-118 | exhaustive search tries all admissible setups, and so does a large search whose exploration came up short after a full period of samples |
| OptimizerGuarantees.CompleteSearchIsOptimal | backend/services/optimization_service.py:35-99 | then each admissible setup is tried exactly once and none deserves a better rank than the recommendation |
| OptimizerGuarantees.CompleteSearchDecides | backend/services/optimization_service.py:174-179 | and a report without success means that no admissible setup meets the targets |
| OptimizerGuarantees.ExhaustedSearchSpaceMeans | backend/services/optimization_service.py:94-179 | stopping with the search space exhausted means that no trial met the targets with budget left, and that either all admissible setups were tried or, for a grid over budget, all admissible neighbours of the frontier to which the rounds of the report had led |
| Kpis.PercentileIsOrderStatistic | backend/services/network_coverage_kpis.py:62-78 | with missing readings lowest, the percentile is the ceil(p n / 100)-th smallest reading, None exactly when that one is missing |
| Kpis.PercentileMonotone | backend/services/network_coverage_kpis.py:62-78 | a higher percentile never reads lower |
| Kpis.ThroughputNeverMissing | backend/services/network_coverage_kpis.py:118-124 | throughput percentiles of a non-empty grid are numbers |
| Kpis.CalculateThresholdAreaPercent | backend/services/network_coverage_kpis.py:40-59 | the counting loop computes the passing share, and rejects other operators |
| Kpis.PercentileBoundsThresholdArea | backend/services/network_coverage_kpis.py:40-78 | where the p-th percentile is v, more than 100 - p percent of the grid reads at least v |
| Kpis.KpisAreConsistent | backend/services/network_coverage_kpis.py:19-37 | KPIs are defined if and only if all cells are well formed; covered and uncovered area then add up to the grid, and only RSRP and SINR percentiles can be undefined, each exactly when the missing readings reach its rank |
| KpiMeaning.AreasAreShares | backend/services/network_coverage_kpis.py:19-37 | covered area is the share of cells that are not marked as holes and have a positive overlap count, or an SINR reading where the count is missing; uncovered area is the share of the others, overlap area that of counts from two on |
| KpiMeaning.AverageOverlapIsMean | backend/services/network_coverage_kpis.py:168-177 | average overlap is the mean count of the served cells that have one, else the summary's figure, else zero |
| KpiMeaning.PercentileOfField | backend/services/network_coverage_kpis.py:62-78 | less than p percent of the cells read below the percentile and at least p percent not above it, each measurement from its own field, missing readings lowest and a missing throughput zero |
| KpiMeaning.PercentileKpisAreTenths | backend/services/network_coverage_kpis.py:81-108 | the three percentile KPIs are the tenth percentiles of signal strength, SINR and throughput |
| KpiMeaning.ThresholdAreaIsShare | backend/services/network_coverage_kpis.py:40-59 | the threshold area is the share of cells whose own reading meets the threshold, for each operator |
| EarClipping.FindEar | backend/services/osm_scene_builder.py:430-450 | the first corner that turns left and has all other remaining corners outside its triangle, by the source's tolerances, if there is one |
| EarClipping.TriangulatePolygon | backend/services/osm_scene_builder.py:418-455 | the triangles come from cutting the first clear corner again and again until three corners are left; only where more are left and none is clear, the fan is returned; the guard never runs out |
| EarClipping.EarsAreClear | backend/services/osm_scene_builder.py:430-470 | the area test accepts exactly the corners that turn left and whose triangle is clear of the others, told by orientations |
| EarClipping.ClippedTrianglesAreEmpty | backend/services/osm_scene_builder.py:430-450 | every clipped triangle has positive signed area and holds none of the other corners that were left |
| Triangulation.TriangulationBoundary | backend/services/osm_scene_builder.py:418-462 | on both paths the triangles weigh what the polygon's boundary weighs, for every antisymmetric edge weight |
| Triangulation.TriangulationProper | backend/services/osm_scene_builder.py:418-462 | always n - 2 triangles of three different valid corners |
| Triangulation.TriangulationConservesArea | backend/services/osm_scene_builder.py:418-462 | their signed areas add up to the polygon's |
| Triangulation.PolygonSignedArea | backend/services/osm_scene_builder.py:563-568 | the loop computes the shoelace area |
| Triangulation.ReversalNegatesArea | backend/services/osm_scene_builder.py:293-294 | reversal negates the area |
| BuildingMesh.ProjectBuildingsToLocalMeters | backend/services/osm_scene_builder.py:266-305 | drops degenerate and small footprints and turns the others counter-clockwise |
| BuildingMesh.KeptExactlyIfLarge | backend/services/osm_scene_builder.py:266-305 | a footprint, without a closing corner that repeats the first, is kept if and only if it has three corners and the minimal area, listed counter-clockwise |
| BuildingMesh.ProjectionStretches | backend/services/osm_scene_builder.py:266-292 | projection moves the centre to the origin and stretches both axes |
| BuildingMesh.ProjectedBuildingsAreUsable | backend/services/osm_scene_builder.py:286-294 | every projected footprint has three corners and at least the minimal signed area |
| BuildingMesh.Mesh.AddWalls | backend/services/osm_scene_builder.py:401-409 | two triangles for each edge of the footprint, closing at the last one |
| BuildingMesh.Mesh.AddCaps | backend/services/osm_scene_builder.py:411-415 | roof triangles, and floor triangles turned the other way |
| BuildingMesh.Mesh.AddExtrudedPolygon | backend/services/osm_scene_builder.py:393-415 | appends one prism to shared vertices and faces, leaving the earlier ones alone |
| BuildingMesh.BuildBuildingMesh | backend/services/osm_scene_builder.py:383-390 | the mesh of all buildings in order |
| BuildingMesh.PrismIsClosed | backend/services/osm_scene_builder.py:393-415 | walls, roof and floor of a prism cancel under every antisymmetric edge weight |
| BuildingMesh.MeshIsWatertight | backend/services/osm_scene_builder.py:383-415 | every directed edge occurs as often as its reverse |
| BuildingMesh.MeshIndicesAreValid | backend/services/osm_scene_builder.py:383-415 | every index names a vertex |
| BuildingMesh.MeshVolume | backend/services/osm_scene_builder.py:383-415 | the signed volume is the sum of height times signed footprint area |
| BuildingMesh.SceneMeshIsSound | backend/services/osm_scene_builder.py:266-415 | all of this for the mesh of any projected footprints, with a positive volume per building |
| Crc32.BuildTable | frontend/src/utils/antennaTemplate.js:349-357 | each table entry is eight bit steps of its index |
| Crc32.ByteStep | frontend/src/utils/antennaTemplate.js:342-344 | one table look-up does the work of eight bit steps |
| Crc32.ComputeCrc32 | frontend/src/utils/antennaTemplate.js:339-347 | the table-driven checksum equals the bit-at-a-time reflected CRC-32 (section 8 of RFC 1952) |
| Crc32.CheckValue | frontend/src/utils/antennaTemplate.js:339-347 | the digits one to nine have the standard's check value |
| ZipArchive.WriteLocalHeader | frontend/src/utils/antennaTemplate.js:259-277 | the local header's bytes (section 4.3.7 of the PKWARE APPNOTE) |
| ZipArchive.WriteCentralHeader | frontend/src/utils/antennaTemplate.js:279-303 | the central header's bytes (section 4.3.12) |
| ZipArchive.WriteEndRecord | frontend/src/utils/antennaTemplate.js:305-323 | the end record's bytes (section 4.3.16) |
| ZipArchive.ConcatUint8Arrays | frontend/src/utils/antennaTemplate.js:325-337 | the parts in one buffer |
| ZipFields.CreateZip | frontend/src/utils/antennaTemplate.js:231-257 | the archive is complete: both records of every file and the end record stand where they belong, with every field, checksums and counts included, every name and every content |
| ZipFields.ArchiveIsComplete | frontend/src/utils/antennaTemplate.js:231-323 | word by word; the words at 14 in a local and at 16 in a central record are the CRC-32 of the file's content |
| ZipArchive.FindEndOfCentralDirectory | frontend/src/utils/antennaImport.js:286-294 | the last position that holds the end signature, or the error exactly when none does |
| ZipArchive.UnzipWorkbookEntries | frontend/src/utils/antennaImport.js:210-246 | the map of normalised paths to contents, or the first error met |
| ZipReader.ReadsExactlyArchives | frontend/src/utils/antennaImport.js:210-294 | for all bytes: the reader succeeds exactly on archives whose directory and local records are in order and whose contents can be extracted, extra fields, comments, gaps and deflated entries included, and returns the last content of each normalised path |
| ZipRoundTrip.LocalRecordAt | frontend/src/utils/antennaTemplate.js:231-257 | each file's local record stands where its central record says |
| ZipRoundTrip.UnzipReadsWhatIsCounted | frontend/src/utils/antennaImport.js:210-294 | for files of any number whose sizes fit, reading gives the first files, as many as the number modulo 65536 |
| ZipRoundTrip.UnzipReadsWhatZipWrote | frontend/src/utils/antennaImport.js:210-294 | for all files whose sizes and number fit, reading the written archive gives their normalised paths and contents |
| ZipRoundTrip.RoundTrip | frontend/src/utils/antennaImport.js:210-273 | with distinct backslash-free paths exactly the written pairs come back |
| ZipRoundTrip.RoundTripIffCountFits | frontend/src/utils/antennaTemplate.js:231-257 | with distinct plain paths and fitting sizes, exactly the written pairs come back if and only if there are fewer than 65536 files |
| ZipRoundTrip.CountWrapLosesEverything | frontend/src/utils/antennaTemplate.js:305-323 | the wrapped count at its extreme: of 65536 files, whatever their sizes, none is found |
| CellReference.CellReferenceOf | frontend/src/utils/antennaTemplate.js:214-225 | the loop writes the column's letters and the row |
| CellReference.ReferenceRoundTrip | frontend/src/utils/antennaImport.js:377-386 | reading a written reference gives back its column |
| CellReference.LettersOfNumber | frontend/src/utils/antennaTemplate.js:214-225 | every upper-case letter string is the written form of its number |
| CellReference.DigitsAreDecimal | frontend/src/utils/antennaTemplate.js:214-225 | the row is written in decimal without leading zeros |
| CellReference.FirstLettersOfColumns | frontend/src/utils/antennaTemplate.js:214-225 | A, Z, AA, ZZ, AAA for the columns 1, 26, 27, 702 and 703 |
| Heatmap.GridRects | frontend/src/utils/optimizationReport.js:173-190 | the rectangles expand to the sorted cells row by row, none is empty, none continues the one before it |
| Heatmap.PaintedAsGiven | frontend/src/utils/optimizationReport.js:173-190 | every position is painted in every colour as often as a cell was given for it |
| Heatmap.NoOverlapNoSeam | frontend/src/utils/optimizationReport.js:173-190 | on distinct positions no two rectangles overlap, and touching ones in a row differ in colour |
| Heatmap.DisjointIffDistinct | frontend/src/utils/optimizationReport.js:173-190 | rectangles are disjoint if and only if positions are distinct |

## Left out

- Floating point: rounding in `(p / 100.0) * n` before the ceiling, in range limits with more than six decimals, and in `max_candidates * 0.4`.
- Result artifacts on disk: the file is keyed by job and written before the ownership check, so it can be lost with the lease; only the row is modelled.
- Transactions, PostgreSQL and SQLAlchemy, routes, Elasticsearch, migrations and seed data: only each store function's effect on its rows is kept.
- Threads, signals and timeouts of the worker: the heartbeat is a step of its own, a timeout one of the failures; workers are sequential and have different identifiers.
- Heartbeat and delete calls are told apart by their job only, so the runs also cover a read followed by several writes.
- A worker call without a worker identifier: the store methods take one as optional, the runs always have one.
- Worker progress callbacks that swallow a cancellation inside the optimizer: the protocol lets any check be ignored.
- The simulator, path loss formulas, GPU code and the dBm conversion: parameters.
- Antenna identifiers are numbers in sorted order instead of strings; labels, texts such as the recommendation's reason, and the `tilts` copy of a candidate are not kept.
- Progress reports of the optimizer to its caller.
- KPI fields that neither objectives nor guardrails nor the rank read: cell totals, averages of the readings, valid-cell shares and the other percentiles.
- JobRuns.FencedOut: does not cover a write whose unlocked read came before the row was lost; `JobRuns.RowsAlwaysConsistent` holds through such writes too, `JobRuns.EndedRowIsFrozen` says what they leave alone, and the two if-and-only-if lemmas what they can spoil.
- LeaseTiming.ClaimedJobSurvives: takes store calls to be instantaneous.
- XML, text encoding, DEFLATE and workbook validation in the reader: entries are bytes, and other compression methods go to an arbitrary decompressor.
- Building heights and materials from tags, GeoJSON input, PLY and scene files; the cosine in the projection's scale.
- Colours and number formats of the report and the SVG text of its heatmap, which starts here from coloured cells.
- React components, ward and antenna services, authentication and log redaction.
