# DS-ViRe verification

Dafny models of the parts of DS-ViRe whose correctness spans more than one function, with
proofs about every run, every ranking or every input. `dafny verify dfyconfig.toml` checks
the whole project.

## What is modelled

**Durable jobs.** `PlatformModel` holds the PostgreSQL rows (jobs, events, outbox) and what
each committed transaction does to them. `PlatformDb` is the class whose methods update those
rows in place, each proved equal to its transaction. `PlatformRuns` and `PlatformLeases` prove
what holds in every reachable state: each row is the fold of its event log, leases fence,
terminal jobs stay terminal, and exactly which running jobs no lease can recover.
`LeaseExclusion` proves that a lease keeps everybody else out until it has run out.
`EventReplay` splits a transaction into taking the row lock, drawing an event number and
committing, and proves that a reconnecting reader never misses or repeats an event.
`JobEventStream` is the SSE loop: what a client gets, by when, and what is lost if it leaves.
`OutboxDispatch` is any number of crashing Redis dispatchers, `OutboxLocks` the time for which a
claim excludes the others, and `PlatformWorker` one handler working among other clients.

**Ranking metrics and calibration.** `RankingMetrics`, `QueryRanking`, `RankingLoaders`,
`VisualMetrics`, `CalibrationError` and `RiskCoverage`: nDCG against the ideal list, average
precision, the loaders, threshold freezing, the ten-bin calibration error against the Brier
score, and the area under the risk-coverage curve. `MetricMeanings` says what the simpler metrics
count.

**Hybrid retrieval.** `HybridQuery` is the cascade (two truncated orders, reciprocal-rank
fusion, routed-type bonus, MaxSim on the first candidates); `CompleteOrder` is the complete
ranking that the full-corpus evaluation builds from it.

**Figure fusion.** `ContentStream` is the q / Q / cm / Do machine over affine matrices,
`ContentOrder` compares it with the order of ISO 32000-1, `FigureAssociation` is the greedy
matching of layout boxes to placed figures, and `BoxOrder` says exactly when that matching depends
on the order of the boxes.

**Sealed-submission export.** `AuthoringSubmission`, `VisualRegistry` and `QueryRegistry` are
the three loaders, each a loop proved against a closed description of what it accepts;
`SubmissionText` ties their vocabulary to the texts of the JSON. `CycleExport` is the export;
`ExportedCases`, `ExportedLinks`, `ExportedQueries`, `ExportAcceptance` and `ExportConsequences`
prove exactly when an accepted submission exports into registries that both loaders accept, and
exactly which refusal it meets otherwise. `ExportRefusals`, `ExportExample` and `ExportOutcomes`
show that success and every refusal, of the loop and of the loaders, can happen, and for exactly
which document ids two cases can clash. `ExportTrace` traces every entry, case, record and judgment
of an export back to its row, region and query, and forward.

**Identity text.** `IdentityMatchers`: the phrase, ordered-token and part-number matchers
against their plain meanings.

`Prelude`, `Ordering`, `TextOrder`, `Fractions`, `Rects` and `Texts` are shared vocabulary.

## Conventions

- A transaction is one atomic step on the committed tables, with one clock value; rolled-back
  transactions and crashes use up numbers and change nothing else. In `EventReplay` the steps
  of open transactions interleave.
- Floats are reals, and scores that come from a model (BM25, dense, MaxSim) are arbitrary.
- The logarithmic discount is any positive, strictly decreasing function of the rank.
- `Text(left, core, right)` is a JSON string together with what `str.strip` would cut off; two
  strings are equal exactly when their parts are. Region ids are required to be split that way
  (`Texts.Canonical`). `Word(left, word, right)` is the same with a word of a vocabulary in the
  middle; `Texts.Word.Exact` says that there are no blanks.

## Where the code does less than one might expect

- A stream can return before the last event is sent (`JobEventStream.StreamMayEndEarly`); it has
  sent everything exactly when the last event it sent is the one that ends the job
  (`JobEventStream.ReturnedWithTheEndExactly`). A client that reconnects with the last event of a
  finished job is never told the end (`JobEventStream.CaughtUpStreamNeverReturns`).
- A crash at the last attempt, or after a cancel request, leaves a job `running` for good
  (`PlatformLeases.RecoverableExactly`, `PlatformLeases.StrandedForever`).
- A handler whose heartbeat comes after its lease has run out, while nobody else has taken the job,
  still holds it: `finish` closes it as failed, even with attempts left
  (`PlatformWorker.ProcessLease`).
- Event numbers commit in order within a job only (`EventReplay.AcrossJobsOrderFails`). Across jobs
  they do so, however the open transactions commit, exactly when they have done so far, drawn
  numbers are above the committed ones, and at most one transaction has drawn a number
  (`EventReplay.AcrossJobsOrderExactly`).
- `freeze_policy` never tries a threshold below every score; `VisualMetrics.OptimalOverAllReals`
  says exactly when that costs accepted positives.
- `associate` depends on the order of the boxes exactly when two different boxes would each, if the
  others were not there, take the same figure (`BoxOrder.OrderFreeForExactly`, for every threshold,
  boxes and figures). Disjoint boxes can do so only at the default threshold of one half, the only
  one the repository uses (src/dsvire/region_corpus.py:101), and there only when both overlap the figure by exactly one half
  (`BoxOrder.RivalsAreHalves`, `BoxOrder.OrderFreeExactly`).
- `cm` is applied behind the current matrix, not in front of it as section 8.3.4 of ISO 32000-1
  has it (`ContentOrder.OrderMatters`). The results agree exactly when every painted image lands in
  the same place both ways (`ContentOrder.FiguresAgreeExactly`), with two matrices in a scope
  exactly when they commute.
- An accepted submission need not export. `load_submission` strips kinds and intents for its own
  checks and hands them on as they were, and the export compares them raw: blanks around them
  lead to refusals of its loop, and a naive seal time or a repeated link to refusals of the loaders
  (`ExportOutcomes.EveryRefusalHappens`). What is needed is listed by `ExportAcceptance.Exportable`:
  among others trimmed words where they count, no repeated links, page numbers that are not JSON
  booleans, distinct source hashes, and qualified ids that do not clash across documents.
- Qualified ids such as `a/b` with `c` and `a` with `b/c` clash. Region ids can be chosen so exactly
  when one document id with a slash after it starts another (`ExportConsequences.NeverClashExactly`);
  in accepted submissions, whose region ids are stripped, the text after that slash must also not
  begin with a blank (`ExportOutcomes.CanClashExactly`).

## Model

| member | source | states |
|---|---|---|
| PlatformDb.PlatformDatabase.constructor | src/dsvire/sql/001_platform.sql:19-104 | new tables hold no rows and their identity sequences start at 1 |
| PlatformDb.PlatformDatabase.WriteEvent | src/dsvire/platform_db.py:405-426 | one event row and one outbox row that names it are appended; nothing else changes |
| PlatformDb.PlatformDatabase.Submit | src/dsvire/platform_db.py:143-199 | the whole new state of a submission: created with its document, key and first event, existing under the same key and request, conflict, or a failed CHECK with everything rolled back |
| PlatformDb.PlatformDatabase.LeaseNext | src/dsvire/platform_db.py:201-242 | a lease goes to the earliest leasable unlocked job by creation time and id; a leased job was queued, or running with its expiry strictly before the clock, with attempts left and no cancel request; none is given only when no unlocked job is so; row, attempt, expiry and `leased` event change together |
| PlatformDb.PlatformDatabase.Heartbeat | src/dsvire/platform_db.py:244-262 | accepted exactly for the holder of a running job whose lease has not run out; it sets stage and expiry and writes a progress event; the answer is false once cancelling was requested |
| PlatformDb.PlatformDatabase.Finish | src/dsvire/platform_db.py:264-312 | a job is closed exactly for its holder; it is then cancelled exactly when a cancel was requested, else succeeded exactly with a result, else queued exactly when retryable with attempts left, else failed; result, error, owner, completion time and the event payload are as given |
| PlatformDb.PlatformDatabase.RequestCancel | src/dsvire/platform_db.py:314-332 | accepted exactly for a queued or running job of the tenant: a queued one is cancelled at once, a running one only flagged, all others are left alone |
| PlatformDb.PlatformDatabase.Events | src/dsvire/platform_db.py:349-364 | the scan returns the job's rows of that tenant past the cursor in id order, at most the limit held to 1..500, and leaves out no such row before a returned one |
| PlatformDb.PlatformDatabase.ClaimOutbox | src/dsvire/platform_db.py:366-388 | exactly the claimed rows get the owner, a lock of 30 seconds and one more attempt, all others are untouched |
| PlatformDb.PlatformDatabase.AcknowledgeOutbox | src/dsvire/platform_db.py:390-403 | exactly the row with this id, if it is locked by this owner and unpublished, is marked published and unlocked |
| PlatformRuns.WriteKeepsInv | src/dsvire/platform_db.py:405-426 | a row update together with an event that explains it keeps the table invariant |
| PlatformRuns.StepKeepsInv | src/dsvire/platform_db.py:143-403 | every transaction, clock step and abort keeps the invariant |
| PlatformRuns.RunsKeepInv | src/dsvire/platform_db.py:143-403 | every reachable state satisfies the invariant |
| PlatformRuns.LogDeterminesRow | src/dsvire/platform_db.py:143-332 | in every reachable state the state, stage, attempt, cancel flag and error of a job row are the fold of its event log |
| PlatformLeases.ConstraintsNeverFail | src/dsvire/sql/001_platform.sql:54-75 | no run violates the table constraints, and an owner is set exactly while a job is running |
| PlatformLeases.TerminalIsFinal | src/dsvire/platform_db.py:205-217 | a terminal job never changes and never gets another event in any later run |
| PlatformLeases.TakenLeaseFencesOldOwner | src/dsvire/platform_db.py:201-281 | once another owner has taken the lease, the old owner has no effect in any later run in which it does not lease the job again |
| LeaseExclusion.LiveLeaseExcludes | src/dsvire/platform_db.py:201-281 | until the clock has passed the end of a lease, no run in which its holder neither renews nor finishes it gives the job to anybody else or changes the attempt |
| LeaseExclusion.GrantLasts | src/dsvire/platform_db.py:201-262 | a lease, or a heartbeat that was accepted, keeps the job for the given seconds against everybody else |
| LeaseExclusion.RenewedLeaseExcludes | src/dsvire/platform_db.py:201-281 | a worker whose lease never runs out keeps the job, at the same attempt, through every run in which it does not finish |
| LeaseExclusion.TakeoverExactly | src/dsvire/platform_db.py:201-217 | after a wait another worker gets a leased job exactly when the lease has run out, an attempt is left and no cancel was requested |
| LeaseExclusion.ExpiredLeaseStaysExpired | src/dsvire/platform_db.py:244-262 | after a lease has run out no heartbeat of its holder is accepted in any later run without a new lease |
| LeaseExclusion.OnlyItsOwnTransactions | src/dsvire/platform_db.py:143-332 | a run without leases, heartbeats and finishes of a job and without cancel requests of its tenant leaves its row and its log alone |
| PlatformLeases.OneClosingPerLease | src/dsvire/platform_db.py:264-312 | between two closing events of a job lies a new lease, so a lease is closed at most once |
| PlatformLeases.NothingFollowsTheEnd | src/dsvire/platform_db.py:264-332 | the event that ends a job is the last of its log |
| PlatformLeases.AttemptsAreLeases | src/dsvire/platform_db.py:205-242 | the number of leases is the attempt count, at most the maximum, and the n-th `leased` payload says n |
| PlatformLeases.RecoverableExactly | src/dsvire/platform_db.py:205-217 | queued jobs are leasable at once; no later run can lease a job again exactly when it is terminal, or running at its last attempt or with a cancel request |
| PlatformLeases.StrandedForever | src/dsvire/platform_db.py:205-217 | such a job stays running in every later run in which its holder does not close it |
| PlatformLeases.SubmitOnce | src/dsvire/platform_db.py:143-199 | submitting under a used key, after any later run, changes nothing and returns the first job exactly when document and request are the same, a conflict otherwise |
| EventReplay.CursorSplits | src/dsvire/platform_db.py:349-364 | fetching past the last delivered id returns exactly what was not delivered |
| EventReplay.PageIsLogAfter | src/dsvire/platform_db.py:349-364 | in every reachable state the rows returned to the job's tenant are the first ones of its log after the cursor, and other tenants get none |
| EventReplay.GapFreeReplay | src/dsvire/platform_api.py:201-220 | over every interleaving of writers, aborts and reconnecting readers, received events followed by what is still to fetch are the whole log after the first cursor |
| EventReplay.AcrossJobsOrderFails | src/dsvire/platform_db.py:405-426 | a run in which event numbers of two jobs commit out of order |
| EventReplay.AcrossJobsOrderExactly | src/dsvire/platform_db.py:405-426 | in every world, numbers ascend across jobs however the open transactions commit exactly when they ascend so far, below every drawn one, and at most one open transaction has drawn one |
| JobEventStream.RunStream | src/dsvire/platform_api.py:201-226 | the loop with its cursor and idle counter sends exactly the frames the rows below are about |
| JobEventStream.StreamIsPrefix | src/dsvire/platform_api.py:209-226 | whatever the job does meanwhile, one connection sends a prefix of the log after its cursor |
| JobEventStream.CommittedIsDelivered | src/dsvire/platform_api.py:209-226 | while the client is there and the job goes on, everything after the cursor that was committed when some turn read is sent by the end of any later turn, or a full page was sent in every turn since |
| JobEventStream.StandingLogIsSent | src/dsvire/platform_api.py:209-226 | on a log that stands still the stream sends exactly the events after the cursor, a full page a turn |
| JobEventStream.KeptUpClientHasAll | src/dsvire/platform_api.py:209-226 | a client that stays and is never more than a page behind is sent exactly what the last turn sees after its cursor |
| JobEventStream.ReturnsOnlyAtTheEnd | src/dsvire/platform_api.py:209-226 | a stream returns only after a turn that found the job ended, with the client there all the time |
| JobEventStream.IdleClientIsKeptAlive | src/dsvire/platform_api.py:222-226 | a client with nothing to receive gets a keepalive every fifteenth turn and nothing else |
| JobEventStream.TurnsOfRunGrow | src/dsvire/platform_api.py:201-220 | in every run of the protocol the turns of a connection see growing prefixes of the last log, as the rows above require |
| JobEventStream.ReturnedCompleteExactly | src/dsvire/platform_api.py:209-226 | over any turns, a stream that returned sent everything exactly when the last event it sent is the last of the job's log |
| JobEventStream.ReturnedWithTheEndExactly | src/dsvire/platform_api.py:209-226 | for a finished job, exactly when the last event it sent is the one that ends the job |
| JobEventStream.FinishedStreamReturnsExactly | src/dsvire/platform_api.py:209-226 | on a finished job, with the client present, a stream returns exactly when something lies after the cursor |
| JobEventStream.StreamMayEndEarly | src/dsvire/platform_api.py:213-221 | a reachable job, cancelled between the two reads of a turn, whose stream returns without the last event |
| JobEventStream.ClientKnowsWhenComplete | src/dsvire/platform_api.py:201-226 | a client holds the whole log of a finished job exactly when its own fold of what it received has ended |
| JobEventStream.CaughtUpStreamNeverReturns | src/dsvire/platform_api.py:214-226 | a caught-up reader of a finished job is sent nothing and no end |
| OutboxDispatch.MovesKeepInv | src/dsvire/accelerators.py:66-86 | the invariant of any number of dispatchers holds over every run with crashes |
| OutboxDispatch.OneRowPerEvent | src/dsvire/platform_db.py:405-426 | every event has exactly one outbox row |
| OutboxDispatch.AtLeastOnceDelivery | src/dsvire/accelerators.py:66-86 | a row is marked published only after a publish of it completed and at most once, and while unmarked becomes claimable again |
| OutboxDispatch.ClaimTakesExactly | src/dsvire/platform_db.py:366-388 | a claim takes exactly the claimable, unlocked rows with fewer than `limit` such rows ahead |
| OutboxLocks.LockExcludes | src/dsvire/platform_db.py:366-403 | until its lock has run out, or its owner acknowledges it, no run changes a claimed row and no claim takes it |
| OutboxLocks.ClaimLasts | src/dsvire/platform_db.py:366-388 | a claimed row stays with its dispatcher for 30 seconds, unless that one acknowledges it |
| OutboxLocks.FreeExactly | src/dsvire/platform_db.py:366-388 | the first row that is not published is taken by the next claim exactly when it has no lock or the lock has run out |
| OutboxDispatch.DispatchRound | src/dsvire/accelerators.py:73-80 | whatever others do meanwhile, one round is a run of the system that publishes the first claimed messages in order; undisturbed, it marks exactly their rows and leaves the rest locked |
| PlatformWorker.Close | src/dsvire/platform_db.py:264-312 | after an answered finish call the caller no longer holds the lease; a successful one leaves the job succeeded, queued, failed or cancelled exactly as its arguments, the attempts and the cancel flag say; a lost connection raises an OSError or an error of another class, with or without the transaction |
| PlatformWorker.Report | src/dsvire/platform_worker.py:48-112 | what each caught failure leaves in the row: only a bad PDF is never tried again, the others are while attempts are left and no cancel was requested; an unexpected failure, or a connection lost while reporting, escapes |
| PlatformWorker.CloseOrReport | src/dsvire/platform_worker.py:59-112 | a finish inside the `try` whose connection is lost with an OSError is reported as a failed worker, an answered one leaves the exact outcome of its arguments; an exception escapes exactly when an error of another class is raised or the connection is lost again, and otherwise the lease is given up |
| PlatformWorker.ProcessLease | src/dsvire/platform_worker.py:48-112 | with others acting after every step, a handler that does not crash ends without the lease; if it closed the job itself, the job has succeeded exactly when a result was produced, both heartbeats were accepted, the reply arrived and no cancel was requested, and after a refused heartbeat or a failure it is left exactly as the matching `finish` leaves it |
| RankingMetrics.PrefixSumsDecide | src/dsvire/query_ranking.py:286-293 | if every prefix sums to no more, the discounted sum is no more, and equal only for equal lists |
| RankingMetrics.BestPossible | src/dsvire/query_ranking.py:290-291 | no m distinct cases carry more gain than the m best judged ones |
| RankingMetrics.DcgAtMostIdeal | src/dsvire/query_ranking.py:286-293 | DCG at k is at most the ideal DCG for every ranking without repeats and every decreasing discount, with equality exactly at the zero-padded ideal gains |
| QueryRanking.QueryMetrics | src/dsvire/query_ranking.py:286-315 | the candidate loop computes exactly the metrics the other rows are about |
| QueryRanking.NdcgInUnit | src/dsvire/query_ranking.py:293-309 | nDCG lies in [0, 1] and is 1 exactly at the ideal gains |
| QueryRanking.PrecisionSumBound | src/dsvire/query_ranking.py:294-302 | the precision sum is at most the number of hits, with equality exactly when the hits come first |
| QueryRanking.AveragePrecisionOne | src/dsvire/query_ranking.py:294-311 | average precision lies in [0, 1] and is 1 exactly when the relevant cases fill the first ranks |
| QueryRanking.AveragePrecisionRises | src/dsvire/query_ranking.py:294-311 | moving a relevant case up past one that is not raises average precision by exactly h / r - h / (r + 1) over the number of judged cases, with h relevant cases up to its new rank r |
| QueryRanking.SwapMovesDcg | src/dsvire/query_ranking.py:286-293 | the same move raises DCG at k by exactly its gain times the difference of the two discounts, by the whole term at the cut, and by nothing below it |
| QueryRanking.SwapKeepsDcg | src/dsvire/query_ranking.py:286-293 | moving a relevant case up one rank never lowers DCG at k |
| QueryRanking.MovingRelevantUp | src/dsvire/query_ranking.py:286-315 | exchanging a non-relevant case with the relevant one below it strictly raises average precision and worsens no other metric |
| MetricMeanings.RecallExactly | src/dsvire/query_ranking.py:289-310 | recall at k is the share of the judged cases that are in the top k, and 1 exactly when all of them are |
| MetricMeanings.HardNegativesExactly | src/dsvire/query_ranking.py:286-315 | the hard negatives at k are the cases of the top k that the query lists as such |
| MetricMeanings.ReciprocalRankExactly | src/dsvire/query_ranking.py:294-312 | the reciprocal rank is at least 1/r exactly when one of the first r cases is relevant, 1/r exactly when the first relevant one has rank r, and 0 exactly without any |
| MetricMeanings.GainsByGrade | src/dsvire/query_ranking.py:286-291 | a candidate gains 3 exactly for grade 2, 1 exactly for grade 1, and nothing exactly when it is not judged |
| RankingLoaders.LoadPoolRanking | src/dsvire/query_ranking.py:134-158 | accepts exactly the rankings of distinct judged cases by descending score |
| RankingLoaders.LoadFullRanking | src/dsvire/query_ranking.py:242-271 | accepts exactly the rankings of all expected cases, each once, by descending score with ties by id |
| VisualMetrics.Validate | src/dsvire/visual_metrics.py:119-134 | accepts exactly non-empty predictions without a repeated case or a group in two splits |
| VisualMetrics.FreezePolicy | src/dsvire/visual_metrics.py:164-224 | exactly when a policy is frozen (predictions, bounds, digests, texts and score semantics); of the calibration predictions that the threshold accepts none has a wrong identity and the wrong visuals are at most the maximum rate of them, and no score, nor 1.0, of which that holds accepts more positives, or as many and is stricter |
| VisualMetrics.FeasibleExactly | src/dsvire/visual_metrics.py:143-161 | a threshold is feasible exactly when what it accepts holds no wrong identity and at most the maximum rate of wrong visuals |
| VisualMetrics.RejectedDoNotMatter | src/dsvire/visual_metrics.py:143-161 | a prediction that a threshold rejects changes neither whether it is feasible nor how many positives it accepts |
| VisualMetrics.FrozenIsBest | src/dsvire/visual_metrics.py:192-208 | the frozen threshold is exactly the best permitted one, said without candidates and rates |
| VisualMetrics.AbstainAllIsFeasible | src/dsvire/visual_metrics.py:137-161 | threshold 1.0 is always a feasible candidate and accepts nothing |
| VisualMetrics.FrozenIsOptimal | src/dsvire/visual_metrics.py:192-208 | no feasible real threshold at or above the smallest score accepts more positives |
| VisualMetrics.FrozenIsUnique | src/dsvire/visual_metrics.py:203-208 | ties go to the strictest threshold, so there is only one frozen threshold |
| VisualMetrics.OrderDoesNotMatter | src/dsvire/visual_metrics.py:192-208 | permuting the predictions does not change the frozen threshold |
| VisualMetrics.SmallestScoreIsAsGood | src/dsvire/visual_metrics.py:143-161 | rejecting the smallest scores is as good as rejecting nothing when no positive has the smallest score |
| VisualMetrics.OptimalOverAllReals | src/dsvire/visual_metrics.py:192-208 | the frozen threshold is best among all reals exactly unless accepting everything is feasible and some positive has the smallest score |
| VisualMetrics.AcceptAllCanBeMissed | src/dsvire/visual_metrics.py:192-208 | a calibration set on which a lower threshold would have accepted more |
| CalibrationError.ScoreMetrics | src/dsvire/visual_metrics.py:235-254 | the two loops of the calibrated branch compute the Brier score and the binned error, with the square of the second at most the first and that at most 1 |
| CalibrationError.BinsPartition | src/dsvire/visual_metrics.py:240-246 | every score in [0, 1] lies in exactly one of the ten bins |
| CalibrationError.BinsCoverErrors | src/dsvire/visual_metrics.py:240-246 | binning loses and repeats no error |
| CalibrationError.CauchySchwarz | src/dsvire/visual_metrics.py:235-239 | the square of the summed errors is at most their number times the summed squares |
| CalibrationError.SquaredErrorBelowBrier | src/dsvire/visual_metrics.py:235-253 | the square of the ten-bin calibration error is at most the Brier score |
| CalibrationError.BrierInUnit | src/dsvire/visual_metrics.py:236-239 | the Brier score is at most 1 |
| CalibrationError.BrierOfConstant | src/dsvire/visual_metrics.py:236-239 | the Brier score of predictions that all have one score is the squared distance of that score from the share of positives, plus the share times what is missing from 1 |
| CalibrationError.EceExactly | src/dsvire/visual_metrics.py:240-253 | the calibration error is the sum over ten bins of the distance between the positives and the summed scores of the bin, divided by the number of predictions |
| RiskCoverage.Aurc | src/dsvire/visual_metrics.py:228-234 | the ranking loop computes the area under the risk-coverage curve, in [0, 1], 0 exactly without wrong cases and 1 exactly without right ones |
| RiskCoverage.RightFirstIsLower | src/dsvire/visual_metrics.py:229-233 | moving a right case ahead of a wrong one takes exactly one over its rank off the summed risk |
| RiskCoverage.AreaIsOrderFree | src/dsvire/visual_metrics.py:229-234 | the area does not depend on the order of the predictions |
| RiskCoverage.AreaLeastExactly | src/dsvire/visual_metrics.py:228-234 | for so many positives among so many cases the area is never below the least possible one, and is the least exactly when every positive scores higher than every other case, ties going to the smaller id |
| RiskCoverage.RankedByScore | src/dsvire/visual_metrics.py:228-234 | earlier ranks have higher scores, or the same score and a smaller id |
| HybridQuery.FuseOrder | src/dsvire/hybrid_query.py:203-206 | one pass adds each listed region its reciprocal-rank share and changes no other entry |
| HybridQuery.Fuse | src/dsvire/hybrid_query.py:203-206 | the dictionary after both passes holds the reciprocal-rank score of exactly the fused regions |
| HybridQuery.Query | src/dsvire/hybrid_query.py:164-236 | a query answers exactly when text, vectors and bounds are valid and the scorer is finite on the candidates, with the prefiltered order and hits the other rows are about |
| TextOrder.RankShape | src/dsvire/hybrid_query.py:157-161 | ranking is an ordered permutation by (score descending, id) |
| HybridQuery.FusedShape | src/dsvire/hybrid_query.py:203-206 | between `top_n` and min(2 `top_n`, pack size) distinct pack regions are fused |
| HybridQuery.HitsAreBest | src/dsvire/hybrid_query.py:209-226 | the hits are the best `limit` of the first `maxsim_k` prefiltered regions by (score descending, id) |
| HybridQuery.FullCascadeIsExhaustive | src/dsvire/hybrid_query.py:201-226 | with `top_n` and `maxsim_k` equal to the pack size the cascade is exhaustive MaxSim, whatever the other scores |
| HybridQuery.MoreCandidatesNeverWorse | src/dsvire/hybrid_query.py:209-226 | raising `maxsim_k` never lowers the score at any hit rank |
| HybridQuery.AheadInBothIsAhead | src/dsvire/hybrid_query.py:203-216 | a region ahead of a fused one in both orders is fused with a strictly larger score and precedes it unless only the other has the type bonus |
| HybridQuery.FusedScoreExactly | src/dsvire/hybrid_query.py:199-206 | a region is fused exactly when fewer than `top_n` regions are ahead of it by BM25 or by the dense score, and each of the two gives it one over the constant plus its rank |
| HybridQuery.BonusDecidesExactly | src/dsvire/hybrid_query.py:207-216 | of two fused regions one comes first exactly when its lead in the fused score is larger than the difference of the type bonuses (0.001 for a routed type), or equal to it with the smaller id |
| HybridQuery.RoutedComesFirst | src/dsvire/hybrid_query.py:207-216 | of two regions with the same fused score the routed one comes first |
| CompleteOrder.ScoredIsFullRanking | scripts/evaluate_full_corpus_colqwen.py:160-174 | descending whole scores over distinct regions pass the loader exactly for the set of regions ranked |
| CompleteOrder.CompleteOrderAccepted | scripts/evaluate_full_corpus_colqwen.py:148-174 | the full-corpus loader accepts the complete order exactly when the fusion kept every region |
| CompleteOrder.EvaluationOrderAccepted | scripts/evaluate_full_corpus_colqwen.py:148-174 | with `top_n` equal to the pack size the order is a permutation of the retrieval pack and is accepted |
| CompleteOrder.CompleteInOrder | scripts/evaluate_full_corpus_colqwen.py:148-174 | the hits come first, in their order, then all others in the order of the prefilter, with scores that fall by one from the number of regions |
| ContentStream.LeftActsFirst | src/dsvire/dsff.py:31-42 | applying a product applies the left matrix first |
| ContentStream.Associative | src/dsvire/dsff.py:31-39 | the matrix product is associative |
| ContentStream.ProductActsInTurn | src/dsvire/dsff.py:31-42 | a product takes a point where its factors take it one after the other |
| ContentStream.CornerBoxIsTight | src/dsvire/dsff.py:160-166 | the corner box encloses the image of every point of the unit square, and no smaller box does |
| ContentStream.PageBoxIsTight | src/dsvire/dsff.py:157-176 | the page box covers the whole image, normalised, flipped and clamped, and no smaller box does; where a matrix takes the corners of the image |
| ContentStream.Extract | src/dsvire/dsff.py:211-257 | the token loop refuses a stream exactly when some token is at fault, with the error of the first such token, and otherwise gives exactly the images painted under the matrices in force |
| ContentStream.RefusedExactly | src/dsvire/dsff.py:211-257 | which token is at fault: a `Q` without an open `q`, a `cm` without six numbers before it, a `Do` without a name before it or with a degenerate crop |
| ContentStream.StackHoldsProducts | src/dsvire/dsff.py:211-236 | every stack entry is the in-order product of the matrices of the scopes still open, found by reading the stream backwards |
| ContentStream.FiguresAreInForce | src/dsvire/dsff.py:237-255 | the machine finds exactly the images painted under the matrices in force at their `Do` |
| ContentStream.FigureCoversImage | src/dsvire/dsff.py:157-176 | a figure's box covers every point of the image taken through the matrices in force one after the other, normalised to the page and clamped |
| ContentStream.BalancedScopeRestores | src/dsvire/dsff.py:215-224 | a balanced segment from `q` to its `Q` leaves the matrix stack as it was |
| ContentOrder.TopsAgreeExactly | src/dsvire/dsff.py:225-236 | the current matrix is that of the section 8.3.4 order exactly when the matrices in force have the same product in stream order and in reverse |
| ContentOrder.FiguresAgreeExactly | src/dsvire/dsff.py:225-255 | the figures are those of that order exactly when every painted image lands in the same place both ways |
| ContentOrder.ResultsAgree | src/dsvire/dsff.py:211-257 | then the same streams are refused, for the same reason |
| ContentOrder.TwoAgreeExactly | src/dsvire/dsff.py:225-236 | two matrices in one scope give the same both ways exactly when they commute |
| ContentOrder.CommutingAgree | src/dsvire/dsff.py:225-236 | any matrices that commute pairwise give the same both ways |
| ContentOrder.TwoMatricesRun | src/dsvire/dsff.py:211-257 | what both orders make of every stream of operands, `cm`, operands, `cm`, a name and `Do`, images or not and degenerate or not |
| ContentOrder.OrderMatters | src/dsvire/dsff.py:211-257 | such a stream, with a move and a doubling, for which the two boxes differ |
| FigureAssociation.BestIsBest | src/dsvire/dsff.py:272-281 | the scan finds a figure of largest overlap among the free ones on the page, and the first such |
| FigureAssociation.Associate | src/dsvire/dsff.py:261-318 | a threshold outside [0.5, 1] is refused; otherwise each box takes a figure that is on its page, is free, and has at least the threshold share of the union of the two in common with it, and takes none exactly when all such figures have gone to earlier boxes |
| FigureAssociation.MatchesAreSound | src/dsvire/dsff.py:271-294 | a match clears the threshold on the box's page, and no figure is matched twice |
| FigureAssociation.MatchesAreMaximal | src/dsvire/dsff.py:271-294 | a box left alone loses each figure that clears the threshold to an earlier box |
| FigureAssociation.RegionsShow | src/dsvire/dsff.py:282-318 | regions are the boxes in order, with source, figure and overlap as matched, then the leftover figures as `other` regions with source `xobject` |
| FigureAssociation.EveryFigureOnce | src/dsvire/dsff.py:271-318 | every figure is shown by exactly one region |
| FigureAssociation.IouInUnit | src/dsvire/dsff.py:77-90 | the overlap lies in [0, 1] and is positive exactly when the boxes overlap |
| FigureAssociation.OutsideTiles | src/dsvire/dsff.py:77-90 | four strips and the common part hold every point of the figure exactly once, and the strips none of the box |
| FigureAssociation.OutsideArea | src/dsvire/dsff.py:77-90 | so the area of the union is that of the box and the strips, which is the divisor |
| FigureAssociation.IouIsShare | src/dsvire/dsff.py:77-90 | the overlap times the area of the union is the area of the common part |
| FigureAssociation.ClearsExactly | src/dsvire/dsff.py:77-90 | a figure clears the threshold exactly when it is on the page and the common part is at least that share of the union |
| FigureAssociation.MatchedExactly | src/dsvire/dsff.py:271-294 | for every box, which figure shares enough with it and is taken, or that all such figures were taken before |
| FigureAssociation.DisjointShareArea | src/dsvire/dsff.py:77-90 | two boxes that do not overlap share the area of a figure between them |
| FigureAssociation.ClearsWithOne | src/dsvire/dsff.py:77-90 | above one half a figure clears the threshold with at most one of two disjoint boxes |
| BoxOrder.NoCompetition | src/dsvire/dsff.py:261-294 | at every threshold, boxes of which no two want the same figure each get what they would get without the others |
| BoxOrder.OrderDoesNotMatter | src/dsvire/dsff.py:261-318 | then the matching and the leftover figures do not depend on the order of the boxes |
| BoxOrder.OrderFreeForExactly | src/dsvire/dsff.py:261-318 | for every threshold, boxes (repeated ones included) and figures, the matching is the same in every order of the boxes exactly when no two different boxes want the same figure |
| BoxOrder.DistinctOrderFreeExactly | src/dsvire/dsff.py:261-318 | for boxes without repeats, exactly when the figures that they would take alone are all different |
| BoxOrder.RivalsAreHalves | src/dsvire/dsff.py:261-294 | at every accepted threshold, two disjoint boxes want the same figure only when the threshold is the default of one half and each overlaps the figure by exactly that |
| BoxOrder.DisjointGetTheirOwn | src/dsvire/dsff.py:261-294 | above one half, disjoint boxes each get what they would get alone |
| BoxOrder.OrderFreeExactly | src/dsvire/dsff.py:261-269 | of the accepted thresholds exactly those above one half make the matching of disjoint boxes independent of their order |
| AuthoringSubmission.CheckRegions | src/dsvire/retrieval_authoring.py:337-384 | the region loop accepts exactly well-formed regions with distinct ids, all positive types and all negative kinds, whatever blanks surround the words, and leaves the id tables of exactly these regions |
| AuthoringSubmission.CheckQueries | src/dsvire/retrieval_authoring.py:385-438 | the query loop (`ScanQueries`) and the count after it accept exactly six well-worded queries with distinct ids, new texts, valid links and two per intent |
| AuthoringSubmission.LoadSubmission | src/dsvire/retrieval_authoring.py:283-440 | the nested loops accept exactly the submissions described by `SubmissionAccepted` |
| SubmissionText.TextDecides | src/dsvire/cycle_eval_export.py:66-71 | reading words apart from their blanks changes neither the registry type of a region nor whether its kind has a label |
| VisualRegistry.AddCaseIds | src/dsvire/visual_registry.py:320-333 | the case loop passes exactly when the entry's qualified ids are new and distinct |
| VisualRegistry.TablesDecide | src/dsvire/visual_registry.py:284-333 | the tables of the entry loop survive exactly the consistent prefixes |
| VisualRegistry.LoadVisualRegistry | src/dsvire/visual_registry.py:252-371 | accepts exactly non-empty registries of well-formed entries without id clashes or leaks between groups and splits |
| QueryRegistry.LoadQueryRegistry | src/dsvire/corpus_coverage.py:120-257 | accepts exactly records that pass every check against the registry, the untrimmed query type included, and have distinct ids |
| QueryRegistry.OwnerFound | src/dsvire/corpus_coverage.py:131-135 | with distinct qualified ids a qualified id leads back to its own entry and case |
| CycleExport.OpposeWrongViews | src/dsvire/cycle_eval_export.py:74-99 | the in-place pass leaves in each position the case that the first matching positive, the fallback, or the relabelling gives |
| CycleExport.ExportDocument | src/dsvire/cycle_eval_export.py:102-166 | one document's entry, the KeyError for a kind without a label, or the refusal when no case is exported |
| CycleExport.ExportSealed | src/dsvire/cycle_eval_export.py:169-247 | the document and query loops followed by both loaders give exactly the result, or the first refusal, that the rows below are about |
| ExportedCases.WrongViewsOpposed | src/dsvire/cycle_eval_export.py:74-99 | after the pass every wrong view opposes a positive top or bottom view of its own type |
| ExportedCases.MappedAreExported | src/dsvire/cycle_eval_export.py:66-137 | the mapped ids are those of the regions with a registry type and a label |
| ExportedCases.RelatedExactly | src/dsvire/visual_registry.py:230-249 | an exported case satisfies the identity relationship exactly unless it is a wrong package whose stand-in equals the real one |
| ExportedCases.PackageUsableExactly | src/dsvire/cycle_eval_export.py:50-51 | the stand-in package equals the real one only for SOIC-8 with blanks around it |
| ExportedCases.CasesOkExactly | src/dsvire/visual_registry.py:317-353 | exported cases meet the registry contract exactly when all positive types and some negative survive, pages are numbers, and the stand-in package differs where it is used |
| ExportedLinks.HardNegativesExist | src/dsvire/cycle_eval_export.py:210-221 | a query finds a hard negative exactly when the document exports some negative |
| ExportedQueries.HardTrimmedExactly | src/dsvire/cycle_eval_export.py:195-206 | the exported hard negatives have trimmed ids exactly when some listed one survives or all negative regions are trimmed |
| ExportedQueries.ShapeExactly | src/dsvire/corpus_coverage.py:174-197 | the exported record is well formed exactly when no exported link is repeated |
| ExportedQueries.RecordExactly | src/dsvire/corpus_coverage.py:139-241 | the query loader accepts the exported record exactly when the query is usable (trimmed intent, links that survive unrepeated, trimmed fallbacks) and the split is trimmed |
| ExportAcceptance.DocumentExactly | src/dsvire/cycle_eval_export.py:188-225 | for an accepted document the loop yields its entry and records, or exactly the first fault it has |
| ExportAcceptance.EntryExactly | src/dsvire/visual_registry.py:284-317 | the exported entry is well formed exactly when plan, source, seal time, surviving kinds, pages and package are usable |
| ExportAcceptance.SurvivorsFound | src/dsvire/retrieval_authoring.py:385-438 | with two queries per intent, a document that passes the loop exports positives of all three types |
| ExportAcceptance.ConsistentExactly | src/dsvire/visual_registry.py:290-333 | with one group per entry only case ids and source hashes can clash |
| ExportAcceptance.VisualExactly | src/dsvire/visual_registry.py:252-371 | the visual loader accepts the exported entries exactly when the rows are usable, the seal time has a zone and nothing clashes |
| ExportAcceptance.RecordsAcceptedExactly | src/dsvire/corpus_coverage.py:120-257 | the query loader accepts the exported records exactly when all queries are usable, splits trimmed and query ids distinct |
| ExportAcceptance.ExportVerdict | src/dsvire/cycle_eval_export.py:169-247 | the export of an accepted, sealed submission gives the first fault of its loop, else the refusal of the visual loader or of the query loader, each exactly under its condition, else a result |
| ExportAcceptance.ExportExactly | src/dsvire/cycle_eval_export.py:169-247 | an accepted, sealed submission exports into registries that both loaders accept exactly when it is exportable |
| ExportConsequences.RefusalsExactly | src/dsvire/cycle_eval_export.py:188-225 | the export stops in its loop with an error exactly when that is the fault of the first document that has one |
| ExportConsequences.TrimmedLoopPasses | src/dsvire/cycle_eval_export.py:188-225 | with trimmed region ids, kinds and intents the loop stops only at a missing row |
| ExportConsequences.TrimmedQueryUsable | src/dsvire/cycle_eval_export.py:200-225 | with trimmed regions a query is usable exactly when its intent is trimmed and no exported link is repeated |
| ExportConsequences.UnextendedIdsDiffer | src/dsvire/visual_registry.py:322-326 | with stripped region ids nothing clashes across documents when no document id is another one with a slash and a text that a region id can start with |
| ExportConsequences.ExtensionClashes | src/dsvire/visual_registry.py:322-326 | when one document id extends another by a slash, exported regions of the two whose ids differ by the rest clash |
| ExportConsequences.NeverClashExactly | src/dsvire/visual_registry.py:322-326 | for distinct document ids, qualified case ids differ for every choice of regions with distinct ids exactly when no document id with a slash starts another |
| ExportConsequences.SlashFreeIdsDiffer | src/dsvire/visual_registry.py:322-326 | without a slash in document ids qualified case ids never clash |
| ExportTrace.CasesTraced | src/dsvire/cycle_eval_export.py:50-137 | each exported case is what became of its region: the label of its kind, the type of its intent, the claimed identity (another package, another part number ending) and the view, turned only for wrong views |
| ExportTrace.EntriesTraced | src/dsvire/cycle_eval_export.py:102-166 | an export that succeeds has one entry for each document, in order, with the fields of its plan, packet, source and seal rows and a case for each exportable region |
| ExportTrace.RecordsTraced | src/dsvire/cycle_eval_export.py:188-239 | it has one record for each query, document by document and in order, with the exported relevant regions as judgments and the listed, or else the other, exported negatives as hard negatives |
| ExportTrace.RecordOrigin | src/dsvire/cycle_eval_export.py:188-239 | every exported record comes from a query of some document |
| ExportTrace.JudgmentsAreGraded | src/dsvire/cycle_eval_export.py:206-232 | every exported judgment has grade 2 and names a case of the entry of its record |
| ExportRefusals.RespelledAccepted | src/dsvire/retrieval_authoring.py:337-384 | `load_submission` does not see blanks around kinds and intents |
| ExportRefusals.NoCasesReached | src/dsvire/cycle_eval_export.py:138-139 | with a blank after every kind and intent, any accepted submission with its rows is refused for having no cases |
| ExportRefusals.UnlabelledReached | src/dsvire/cycle_eval_export.py:123 | with a blank after the kinds of positives, any exportable submission ends in a KeyError |
| ExportRefusals.RelevantNotExportedReached | src/dsvire/cycle_eval_export.py:206-209 | with a blank after the intents of positives, any exportable submission is refused for its relevant regions |
| ExportRefusals.NoHardNegativesReached | src/dsvire/cycle_eval_export.py:222-225 | with a blank after the words of negatives, any exportable submission is refused for having no hard negatives |
| ExportOutcomes.SomethingExports | src/dsvire/cycle_eval_export.py:169-247 | there is an accepted submission that both loaders accept the export of |
| ExportOutcomes.EveryRefusalHappens | src/dsvire/cycle_eval_export.py:169-247 | for each refusal, of the loop and of the two loaders, there is an accepted submission that meets it |
| ExportOutcomes.ExtensionRefused | src/dsvire/visual_registry.py:322-326 | for any twelve document ids of which one extends another, there is an accepted submission with these ids in which two cases clash, and which the visual loader therefore refuses |
| ExportOutcomes.CanClashExactly | src/dsvire/visual_registry.py:322-326 | some accepted submission with the given twelve document ids has a clash exactly when one of them extends another |
| IdentityMatchers.PhraseIsContiguousRun | src/dsvire/pipeline.py:172-175 | the padded substring test holds exactly when the needle's words form a contiguous run |
| IdentityMatchers.MatchFrom | src/dsvire/pipeline.py:183-191 | the greedy inner loop matches a longest prefix of the needle: no choice of positions from that start within the window matches more words |
| IdentityMatchers.ContainsOrderedTokens | src/dsvire/pipeline.py:178-193 | the loop holds exactly when some bounded window holds the needle as a subsequence from its first word |
| IdentityMatchers.PhraseImpliesOrdered | src/dsvire/pipeline.py:172-193 | a phrase match is an ordered match for every slack |
| IdentityMatchers.Find | src/dsvire/pipeline.py:209 | the first occurrence at or after a position, or -1 exactly when there is none |
| IdentityMatchers.ContainsExactMpn | src/dsvire/pipeline.py:203-216 | the scan holds exactly when some occurrence has no letter or digit next to it |

## Left out

- TakenLeaseFencesOldOwner: `finish` fences by owner name and not by expiry, so the old owner is assumed not to lease the same job again under the same name.
- Fresh ids: `gen_random_uuid` values are parameters, and a clashing value is not a step.
- Tenants, API keys, migrations, `updated_at` and the Redis, S3 and Qdrant clients; a Redis publish is one event that completed.
- FastAPI, subprocess and OS limits, and `run_forever`, which only repeats leases.
- Aborted transactions in `PlatformRuns` only use up event and outbox numbers; how PostgreSQL orders locks is seen only in `EventReplay`.
- Rounding of metrics to 6 or 12 digits, and float arithmetic in general.
- `_aggregate` and `full_corpus_order_sha256`: sums and digests over already proved rows.
- The whole-artifact checks of the ranking loaders (digests, versions, one ranking per query); the per-query candidate loops are modelled.
- `_bm25`, `_dot`, `maxsim`, `maxsim_numpy` and `route_types`: their scores and routed types are arbitrary in every theorem. Components and scores that are not numbers are refused by the source and are not values of the model.
- `bind_prediction_scores` and the report writers around the metrics.
- `_tokenize`, PDF parsing and stream decoding: the content-stream machine starts from tokens. The tokenizer makes no progress on a bare `)`.
- Associate: the reported overlap of an unmatched box depends on the order of the boxes, so nothing is claimed about it, and overlaps are not rounded.
- Unicode normalisation and case folding in the text matchers: a phrase is the list of words it normalises to.
- ProcessLease: a lost connection is modelled for `finish`; a heartbeat that raises inside the `try` is a failure of the handler body, and the first one, which is outside, just escapes.
- LoadSubmission: views are an enumeration because the loader compares them raw; digests, JSON key and type checks and the author's attestation are not modelled; the wording rules are two parameters.
- LoadVisualRegistry: schema version, redistribution and licence note are fixed by the export and not modelled, and the order of checks, which only picks the message, is not kept.
- LoadQueryRegistry: JSON keys, schema version and the provenance method are not modelled.
- `load_authoring_packet` and `load_authoring_seal` appear as the facts they check (`PacketAccepted`, `SealOk`); building the packet and sealing are not modelled.
- The split plan and digests that the export returns beside the registries.
- `trace.py`, `symbol_layout.py`, `retrieval_train.py`, `eftri.py`, `bundle.py` and the CLI scripts: trace headers, schematic drawing, training losses, figure-type routing, result archives and command lines, on which none of the protocols above depends.
