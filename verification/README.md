# Verified model of Resume Rank's backend

This project models the parts of the backend whose correctness rests on more than one function, and
proves what they promise. `dafny verify dfyconfig.toml` checks all of it.

## What is modelled

- **Leased work queues.** `Leases` is the row protocol shared by scoring runs, resume files and
  emails: claim, crash, stale recovery, retry with backoff, and settlement through a
  `(status, lockedAt)` fence. `ScoringTables`, `ScoringSafety` and `ScoringRuns` are the scoring
  queue as a database whose transactions are steps; `ScoringDecisions` says case by case what they
  decide, and `ScoringStore` updates the same tables in place, method by method. `ResumeQueue` and `EmailOutbox` do the same for their queues. `ScoreMath` is the
  score in the double-precision arithmetic of `Doubles`, `Reconcile` the evidence rule, `Backoff` the
  retry delays.
- **Audit log.** `AuditChain` is the chain check and the batched verifier over any log,
  `AuditRetention` sealing, prefix purges and account erasure, `AuditWatch` the verifier query by
  query beside them, `AuditStream` the leased at-least-once delivery with its cursor.
- **Keyset pagination.** `SeekOrder` is ORDER BY and WHERE in SQL's three-valued logic for the three
  sorts, `KeysetPages` pages, cursors and the export loop against slices of one sorted list.
- **Tenant scoping.** `TenantScope` is the query rewrite and what queries do to a table,
  `TenantReferences` foreign keys and cascades, `TenantRuns` when companies notice each other over
  whole runs, `TenantPolicies` what the parent lookups of row policies add.
- **Counters and cursors.** `RateLimits` is the sliding window, `Metering` the usage watermark.
- **Encoders and arithmetic.** `ByteMasks` and `IpRanges` are CIDR ranges, `Base32` the bit buffer,
  `Csv` the printer and a reader, `Kappa` Cohen's kappa. `Arith`, `Text`, `Ordering`,
  `Collections` and `Options` are shared.

## How to read it

A transaction or single SQL statement is one atomic step. Times are integer milliseconds. A run is a
list of steps, each `Allowed` in the state it meets; a crash is a claim that nothing follows. What a
worker remembers is a ticket, and a late worker is a step under an old ticket, so every ticket ever
issued may act at any time. History variables (`tokens`, `batches`, `done`, `history`, `sent`) record what
happened and are read by no transaction. Methods of the classes are proved equal to functions on the
old state, and the lemmas are about those functions. The score is computed in doubles; SQL's `float8`
weights and kappa are exact (scaled integers or reals).

## Where the code does less than it seems to

- `lockedAt` alone tells stream claims apart. Two claims in one millisecond with another between them
  let a late worker take the cursor back; without such claims it never moves back
  (`AuditStream.CursorNeverDecreases`).
- The run, file and email queues hand out a token once as long as a requeue falls due after the token
  it gives up, which clock steps smaller than the retry delay cannot change. A larger step back can
  (`Leases.RequeueSeparatesTokens`, `Leases.SetBackClockReusesToken`).
- Companies notice each other through keys (`TenantRuns.CompaniesDoNotInterfere` says exactly when).
  A unique key that does not name the company, such as a verified domain, may make a write fail on a
  row the caller cannot read (`TenantRuns.BlockedExactly`). And foreign keys look across companies: a
  row may refer to another company's row, and then goes, or lets go, when that row does
  (`TenantRuns.ChangesOthersExactly`). The policies of Application and ScoringRun look the parent up
  first; those of ResumeFile, JobAssignment and SelfIdResponse test the company alone, so there it is
  the services' own lookup that keeps references at home (`TenantPolicies.FileOfForeignCandidate`,
  `TenantPolicies.HomelyRunsMeetInKeysOnly`).
- The batches of `verifyAuditLog` and the query for the recorded cut are separate statements. A purge
  in between can make it report an honest log as broken, exactly when it takes an entry that was not
  read, or the record of the cut (`AuditWatch.WatchedLogVerifiesCleanExactly`,
  `AuditWatch.PurgeBetweenBatches`, `AuditWatch.PurgeBeforeAnchorQuery`).
- Some percentages half way between two integers are rounded down, because the quotient is not a double:
  11.5 of 20 gives 57 (`ScoreMath.ScoreIsNearestUpToTies`, `ScoreMath.TieGoesDown`).
- A message whose address is suppressed after the worker looked is still sent
  (`EmailOutbox.SentExactlyWhen`).
- `verifyAuditLog` never reads rows numbered below 1, yet accepts one as the record of a purge
  (`AuditChain.WholeLogIsReadExactly`, `AuditChain.HiddenPurgeAnchors`).
- The settings columns of a run are written when it is requested, its input hash when it is scored.
  After a redeployment in between they may disagree
  (`ScoringRuns.SettingsColumnsExplainTheRun` says exactly when).
- An answer of a fallback model is stored under that model's input hash, which the next request for
  the same inputs does not look for: it queues, and pays for, another run unless an earlier one
  matches (`ScoringRuns.FreshScoreIsReusedExactly`).
- An empty `after` parameter hides a `before` cursor
  (`KeysetPages.BeforeCursorIsReadExactlyWithoutAfter`), and the Next link of a page read backwards
  may lead back to page one after deletions (`KeysetPages.NextOfBackwardPage`).
- `csvRow` prints a row without cells like a row of one empty cell (`Csv.RoundTripExactly`).
- A usage pass that reads 500 runs finished in the first millisecond past the watermark does not
  advance, and neither does any later one (`Metering.PassAdvancesExactly`, `Metering.CrowdIsNeverPassed`).
- The zero that `cohensKappa` keeps for a chance of 1 is never returned
  (`Kappa.CertainChanceMeansAgreement`).

## Model

| member | source | states |
|---|---|---|
| Leases.FenceIsNewestClaim | backend/src/scoring/queue.ts:133-136 | A write fenced by status and lockedAt lands exactly for the newest claim of a running row, however many claims are still held in memory |
| Leases.RequeueSeparatesTokens | backend/src/scoring/queue.ts:146-168 | Every later claim carries a new token if and only if a requeued row becomes due after the token it gave up |
| Leases.SetBackClockReusesToken | backend/src/scoring/queue.ts:146-168 | A clock set back past the retry delay hands one token out twice, and the first holder owns the second claim |
| Leases.RecoveredValid | backend/src/scoring/queue.ts:114-131 | Stale recovery keeps every earlier token below the time the row is next due and never exceeds the attempts |
| Leases.RecoveredExactly | backend/src/scoring/queue.ts:114-131 | Recovery takes exactly the running rows whose worker was last heard of more than the stale time ago: due at once with attempts left, settled without |
| Leases.TwoUpdatesRecover | backend/src/scoring/queue.ts:116-125 | The first update of recovery leaves the second its rows and adds none; together they are one recovery |
| Leases.LeaseRun | backend/src/scoring/queue.ts:73-168 | Over any interleaving of claims, crashes, recoveries, retries and late workers: tokens stay distinct, claims and changes are bounded, a settled row never changes |
| Leases.FreshLeaseRun | backend/src/scoring/queue.ts:73-168 | From a fresh row: distinct tokens, at most max claims, at most twice that many changes |
| Leases.ChangesCount | backend/src/scoring/queue.ts:73-168 | The changes counted are the steps that change the row |
| Backoff.JitteredBounds | backend/src/scoring/queue.ts:53-63 | The jittered delay is within 20% of the exponential one, up to rounding |
| Backoff.ExponentialDoubles | backend/src/scoring/queue.ts:53-57 | The first delay is the base, and each further one doubles it up to the cap |
| ScoreMath.ComputeScore | backend/src/scoring/math.ts:23-33 | The loop over credits and weights rounds the percentage that the doubles give |
| ScoreMath.ScoreIsNearestUpToTies | backend/src/scoring/math.ts:23-33 | The score is the exact percentage rounded to the nearest integer, ties up, but one less exactly for a tie that the doubles place below the half |
| ScoreMath.TieGoesDown | backend/src/scoring/math.ts:23-33 | 11.5 of 20 points give 57 where the exact 57.5 rounds to 58 |
| Doubles.PercentIsNear | backend/src/scoring/math.ts:32 | Two roundings miss e hundredths of d by less than 1 in d, d being the half points possible |
| ScoreMath.ScoreIsNearestPercentage | backend/src/scoring/math.ts:14-33 | The score is from 0 to 100 and within a half of the exact percentage |
| ScoreMath.BetterVerdictsNeverLowerTheScore | backend/src/scoring/math.ts:3-33 | Raising any verdict never lowers the score |
| ScoreMath.MustCountsTwice | backend/src/scoring/math.ts:3-6 | A must-have weighs exactly as two nice-to-haves with its verdict |
| Text.TrimExactly | backend/src/scoring/queue.ts:200 | Trimming takes white space off both ends and nothing else |
| Reconcile.AcceptedExactly | backend/src/scoring/parse.ts:62-86 | A model answer is accepted exactly when its ids are the requirements' ids, each once |
| Reconcile.RefusedBecause | backend/src/scoring/parse.ts:67-82 | A refused answer is refused for a repeated id, else an unknown one, else a requirement left out |
| Reconcile.ReconciledExactly | backend/src/scoring/parse.ts:86-105 | One evaluation per requirement, in order, each of its own answer: STRONG drops to PARTIAL exactly when its quote does not occur in the resume, the status says which, a blank quote is dropped, and nothing else is changed |
| ScoringSafety.RetryDelayBounds | backend/src/scoring/queue.ts:53-63 | A retry waits at least 8 s and at least what the provider asked for, and at most 6 minutes of its own accord |
| ScoringSafety.RetryDelaysDouble | backend/src/scoring/queue.ts:53-63 | The delays before the second, third and fourth attempt are 10, 20 and 40 s, give or take a fifth |
| ScoringSafety.RetryEffect | backend/src/scoring/queue.ts:146-168 | A retry either fails the run or requeues it at least 8 s past the token it gives up |
| ScoringSafety.RequestEffect | backend/src/services/scoring.ts:151-236 | The three things a request does to the tables: nothing, pointing at a matching run, or one new queued run |
| ScoringSafety.StepKeepsInv | backend/src/scoring/queue.ts:73-292 | Each transaction keeps the invariant (leases, caps, one active run, records, mirrored scores) and only moves runs forward or adds them |
| ScoringRuns.RunKeepsInv | backend/src/scoring/queue.ts:73-292 | The invariant holds in every state of every run |
| ScoringRuns.ReachableIsSafe | backend/src/scoring/queue.ts:65-131 | At most 8 running runs, 2 per company, one queued or running run per application; distinct tokens, at most 4 claims, QUEUED only below the maximum |
| ScoringRuns.ReachableScoresAgree | backend/src/scoring/queue.ts:233-279 | A displayed score, summary and time are those of a SUCCEEDED run of that application, and that run's score is computed from its stored evaluations, one per requirement it was scored on, STRONG only when VERIFIED |
| ScoringRuns.WorkIsBounded | backend/src/scoring/queue.ts:73-168 | A run is changed at most twice per attempt left, keeps the claims it had, and never changes once settled |
| ScoringRuns.EvaluationsAreWrittenOnce | backend/src/scoring/queue.ts:243-279 | The evaluations of a settled run never change |
| ScoringRuns.LateWorkerChangesNothing | backend/src/scoring/queue.ts:133-168 | A worker without the newest claim of a running run changes no table |
| ScoringRuns.CurrentWorkerActs | backend/src/scoring/queue.ts:133-292 | The holder of the newest claim settles or requeues its run |
| ScoringRuns.ClaimTakesEarliest | backend/src/scoring/queue.ts:65-108 | Nothing is claimed exactly when eight runs are running or no due run is of a company with fewer than two; else the earliest such run is, by due time, creation and id, under a new token, and no other changes |
| ScoringRuns.ReusedScoredOnCurrentInputs | backend/src/services/scoring.ts:179-214 | A run handed out as reused was scored on exactly the current inputs and settings, and the application shows its score |
| ScoringRuns.RequestQueuesOnlyWhenNeeded | backend/src/services/scoring.ts:151-236 | A run is queued only when none is active and none matches; otherwise nothing is queued |
| ScoringRuns.BulkRequestCountsEveryone | backend/src/services/scoring.ts:258-339 | Queued, already queued, skipped, excluded and remaining add up to the unscored applicants; at most 200 are queued |
| ScoringRuns.BulkRequestQueuesWhatItSays | backend/src/services/scoring.ts:258-339 | A bulk request queues as many runs as it says, each for an unscored applicant without an active run, and touches no other run |
| ScoringRuns.RecoveryLeavesNoneStale | backend/src/scoring/queue.ts:40-131 | Recovery changes exactly the runs whose worker has been silent for more than three minutes: due at once below four attempts, else FAILED; a younger claim is untouched, and doing it twice changes nothing more |
| ScoringRuns.WorkerChecksWhatRequestsCheck | backend/src/scoring/queue.ts:197-221 | A worker evaluates a queued run exactly when a request of that moment would not be refused, and on the same inputs |
| ScoringRuns.ScoredExactlyWhen | backend/src/scoring/queue.ts:175-292 | A claim processed undisturbed succeeds exactly when it is the newest of a running run, the application is there, the resume long enough, the job has requirements, the candidate is informed as required and did not opt out, the budget lasts and the answer is accepted |
| ScoringRuns.FreshScoreIsReusedExactly | backend/src/services/scoring.ts:179-187 | A request right after a score is answered with a reused run exactly when the configured model gave the score or an earlier run matches; else a new run is queued |
| ScoringRuns.FallbackAnswerIsPaidTwice | backend/src/services/scoring.ts:179-232 | On one application, a request after a fallback answer queues a second run |
| ScoringRuns.SettingsColumnsExplainTheRun | backend/src/scoring/queue.ts:243-262 | The settings columns reproduce the input hash exactly when the asking and the scoring deployment agree on prompt version, temperature and seed |
| ScoringRuns.RedeployedColumnsDoNotExplain | backend/src/scoring/queue.ts:243-262 | A run asked for under prompt v1 and scored under v2 carries columns that give another hash |
| ScoringDecisions.CurrentClaimIsDecided | backend/src/scoring/queue.ts:175-292 | The newest claim, processed undisturbed, leaves its run FAILED with the first objection, or after an error FAILED with its message or QUEUED at least 8 s and as long as asked, or SUCCEEDED with its input, settings, evaluations and the score shown; never RUNNING, and no other run changes |
| ScoringDecisions.ObjectionsAreComplete | backend/src/scoring/queue.ts:197-228 | There is no objection exactly when the application may be scored |
| ScoringDecisions.LateClaimIsIgnored | backend/src/scoring/queue.ts:133-144 | Any other claim, processed late, changes nothing |
| ScoringDecisions.RequestIsAnswered | backend/src/services/scoring.ts:151-236 | A request is answered with the first objection, else a run in flight, else the newest SUCCEEDED run on the same inputs and settings, which the application then shows, else within budget and quota with a new queued run; nothing else changes |
| ScoringDecisions.CountsAreOf | backend/src/services/scoring.ts:286-308 | The five counts of a bulk request are those of the applicants in flight, barred by opt-out or missing notice, too short of text, and eligible, of whom up to 200 are queued |
| ScoringDecisions.BatchIsFirstEligible | backend/src/services/scoring.ts:286-305 | A bulk request queues eligible applicants only, and of those the ones who applied first |
| ScoringDecisions.BulkIsAnswered | backend/src/services/scoring.ts:258-339 | A bulk request is answered with the first objection, else the counts if nobody is eligible, else a spent budget or quota, else the counts and one new run, on the current inputs and settings, for each of the batch; nothing else changes |
| ScoringStore.Store.ClaimNextRun | backend/src/scoring/queue.ts:73-108 | The in-place claim is the claim step |
| ScoringStore.RunRecovers | backend/src/scoring/queue.ts:114-131 | The two updates never touch one run and together are its recovery |
| ScoringStore.Store.RecoverStaleRuns | backend/src/scoring/queue.ts:114-131 | Both updates in place are the recovery step, counted |
| ScoringStore.Store.FailRun | backend/src/scoring/queue.ts:138-144 | The fenced failure in place is the failure step |
| ScoringStore.Store.RetryOrFail | backend/src/scoring/queue.ts:146-168 | The retry decision in place is the retry step |
| ScoringStore.Store.Finish | backend/src/scoring/queue.ts:243-292 | The final transaction in place is the finish step, and its row count tells whether the fence held |
| ScoringStore.Store.ProcessRun | backend/src/scoring/queue.ts:175-292 | The guards in their order, the reply and the write they lead to are the processing step |
| ScoringStore.Store.RequestScoring | backend/src/services/scoring.ts:151-236 | The request in place is the request step |
| ScoringStore.Store.CreateMany | backend/src/services/scoring.ts:310-324 | The bulk insert adds one run per application under fresh ids |
| ScoringStore.Store.RequestJobScoring | backend/src/services/scoring.ts:258-339 | The bulk request in place is the bulk step |
| ResumeQueue.NewestUploadWins | backend/src/ingestion/queue.ts:98-184 | Once any file is PARSED the resume text is that of a PARSED file with the greatest createdAt, whatever the order of claims, retries, recoveries and parses |
| ResumeQueue.UploadIsRead | backend/src/ingestion/queue.ts:38-151 | An upload that is claimed and read becomes the candidate's resume |
| ResumeQueue.ClaimTakesEarliest | backend/src/ingestion/queue.ts:33-52 | Nothing is claimed exactly when nothing is due; else the earliest due file is, by time and id, under a new token |
| ResumeQueue.RecoveryTakesSilentFiles | backend/src/ingestion/queue.ts:11-70 | Recovery changes exactly the files whose worker has been silent for more than three minutes: due at once below three attempts, else FAILED |
| ResumeQueue.ClaimIsDecided | backend/src/ingestion/queue.ts:72-151 | The newest claim of a running file makes it FAILED with the message, QUEUED 15 or 30 s ahead after an error, FAILED after the third, or PARSED; any other claim changes nothing |
| ResumeQueue.Store.ClaimNextResumeFile | backend/src/ingestion/queue.ts:38-52 | The in-place claim is the claim step |
| ResumeQueue.Store.RecoverStaleResumeFiles | backend/src/ingestion/queue.ts:54-70 | The two updates in place are the recovery step, counted |
| ResumeQueue.Store.FailFile | backend/src/ingestion/queue.ts:77-83 | The fenced failure in place is the failure step |
| ResumeQueue.Store.Commit | backend/src/ingestion/queue.ts:132-184 | The final transaction stores the text exactly when it is owned and no newer upload has been read |
| ResumeQueue.Store.RetryOrFail | backend/src/ingestion/queue.ts:85-96 | The retry decision in place is the retry step |
| EmailOutbox.RetriesLandBeforeExpiry | backend/src/email/policy.ts:5-35 | A retry lands 24 s to 36 min ahead and before the link expires; far from expiry it depends on the failure and the attempts alone |
| EmailOutbox.RetryDelaysDouble | backend/src/email/policy.ts:1-15 | The delays are 30 s, doubling with each attempt, give or take a fifth |
| EmailOutbox.ClaimTakesEarliest | backend/src/email/outbox.ts:58-73 | Nothing is claimed exactly when nothing is due; else the earliest due message is, by time and id, under a new token |
| EmailOutbox.RecoveryTakesSilentMessages | backend/src/email/outbox.ts:75-95 | Recovery changes exactly the messages whose sender has been silent for more than two minutes: due at once with the payload below six attempts, else FAILED without |
| EmailOutbox.CurrentClaimIsDecided | backend/src/email/outbox.ts:131-182 | The newest claim leaves its message EXPIRED, SUPPRESSED or FAILED before delivery, SENT, or on a refusal QUEUED before the expiry while that leaves room and FAILED otherwise; never SENDING, and no other message changes |
| EmailOutbox.LateClaimIsIgnored | backend/src/email/outbox.ts:106-121 | Any other claim, processed late, changes nothing |
| EmailOutbox.EventReaches | backend/src/email/outbox.ts:237-258 | An event marks the messages with its id, else one sent last to a recipient by then, and no other |
| EmailOutbox.PrunedExactly | backend/src/email/outbox.ts:97-104 | Exactly the settled messages created more than thirty days ago are deleted |
| EmailOutbox.PayloadLivesExactlyWhileActive | backend/src/email/outbox.ts:59-182 | A message holds its payload exactly while QUEUED or SENDING, is claimed at most six times, never twice under one token |
| EmailOutbox.SettledMessagesStaySettled | backend/src/email/outbox.ts:112-121 | A settled message is never queued, sent or given a payload again |
| EmailOutbox.MessageIsSent | backend/src/email/outbox.ts:39-160 | A message that is queued, claimed and accepted ends SENT, without its payload |
| EmailOutbox.SentExactlyWhen | backend/src/email/outbox.ts:131-182 | A claim leads to SENT exactly when it is current, unexpired, not suppressed when the worker looked, readable and accepted by the provider; a later suppression does not stop it |
| EmailOutbox.Store.ClaimNextEmail | backend/src/email/outbox.ts:58-73 | The in-place claim is the claim step |
| EmailOutbox.Store.RecoverStaleEmails | backend/src/email/outbox.ts:75-95 | The two updates in place are the recovery step, counted; whoever gives up drops the payload |
| EmailOutbox.Store.ApplyEvent | backend/src/email/outbox.ts:237-258 | An event changes the messages with its id, or else the last one sent to a recipient before it |
| EmailOutbox.Store.ProcessEmail | backend/src/email/outbox.ts:131-182 | Processing in place is the processing step |
| EmailOutbox.Store.SettleRow | backend/src/email/outbox.ts:112-121 | The fenced settling update drops the payload and nothing else of other rows |
| EmailOutbox.Store.PruneEmails | backend/src/email/outbox.ts:97-104 | Pruning deletes exactly the old settled messages |
| AuditChain.FindChainBreak | backend/src/audit/chain.ts:37-50 | The loop returns the break of the recursive check |
| AuditChain.FindBreakIsFirstFault | backend/src/audit/chain.ts:31-50 | The check reports the fault of the first entry that has one, and none exactly on an intact chain |
| AuditChain.FaultsMean | backend/src/audit/chain.ts:31-50 | What passes and what each fault means: the number, the hash named, and the hash of the fields |
| AuditChain.VerifyAuditLog | backend/src/services/audit.ts:401-451 | On any log that stands still, whatever the batch size, the batched check reports what one pass over the rows above 0 would: break, checked count, first and last seq |
| AuditChain.WholeLogIsReadExactly | backend/src/services/audit.ts:408-419 | That is the report of one pass over the whole log exactly when no row is numbered below 1; such a row is never read, though one pass would always fault it |
| AuditChain.ReportExactly | backend/src/services/audit.ts:424-450 | The report counts the rows before the first fault and ends with the last of them, or with the anchor |
| AuditChain.AnchoredExactly | backend/src/services/audit.ts:383-397 | Rows past 1 are anchored exactly by an audit.purge entry with their number and hash |
| AuditChain.HiddenRowsCountExactly | backend/src/services/audit.ts:388-395 | Unread rows change the report exactly when some row numbered below 1, and no row above 0, records the cut before the first row above 0 |
| AuditChain.HiddenPurgeAnchors | backend/src/services/audit.ts:388-395 | A forged purge entry numbered 0 makes a log that starts at 2 verify clean |
| AuditChain.BatchFault | backend/src/services/audit.ts:424-440 | A break in a batch, after batches that pass, is the break of the whole log, with the right count |
| AuditChain.SameEndSameChain | backend/src/audit/chain.ts:1-50 | Two intact chains of one length and one final hash agree on every hashed field |
| AuditChain.TamperingIsFound | backend/src/audit/chain.ts:1-50 | Two chains that pass from one anchor and end in the same seq and hash agree on every hashed field of every entry |
| AuditRetention.PurgeIsPrefixCut | backend/src/audit/retention.ts:21-70 | A purge deletes a prefix up to an expired entry, at most 50,000 and never the tip, leaves nothing expired behind unless one of these stops it, and appends the entry that records the cut |
| AuditRetention.ReachableLogsVerifyClean | backend/src/audit/retention.ts:9-70 | Every log that sealing, purging and account erasure can produce verifies clean in full while it stands still |
| AuditRetention.ErasedExactly | backend/prisma/schema.prisma:827 | Account erasure clears the actor of its own entries and nothing else |
| AuditWatch.StillLogIsReportedInOnePass | backend/src/services/audit.ts:405-451 | Query by query, the verifier of any log that stands still ends with the report of one pass |
| AuditWatch.WatchedLogVerifiesCleanExactly | backend/src/services/audit.ts:405-451 | Among any appends, purges and erasures between its queries, an honest log is reported clean exactly when every query comes in time, and a clean report has checked every number from its first up to the tip at the beginning or further; else an entry is missing or the first one unanchored |
| AuditWatch.QueryTooLate | backend/src/services/audit.ts:405-451 | What a query that comes too late reports, with its counts |
| AuditWatch.ShortBatchEnds | backend/src/services/audit.ts:443-450 | A query in time that finds less than a batch ends the verification at the tip it finds |
| AuditWatch.PurgeSpoilsReadingExactly | backend/src/services/audit.ts:411-418 | A purge between two batches makes the next one too late exactly when it deletes an entry that was not read |
| AuditWatch.PurgeSpoilsAnchorExactly | backend/src/services/audit.ts:388-396 | A purge before the anchor query makes it too late exactly when no remaining entry records the cut that is looked for |
| AuditWatch.OnlyPurgesSpoil | backend/src/services/audit.ts:405-451 | Appends and erasures alone never do |
| AuditWatch.PurgeBetweenBatches | backend/src/services/audit.ts:411-443 | For any batch size below 50,000: an honest log whose next unread entry is purged is reported missing that entry |
| AuditWatch.PurgeBeforeAnchorQuery | backend/src/services/audit.ts:388-424 | An honest log whose recorded cut is purged before the anchor query is reported unanchored |
| AuditRetention.NumbersNeverGoBack | backend/prisma/migrations/20261015090000_audit_log/migration.sql:90-125 | The numbers given out are those that follow the tip, in order and without a gap, whatever is purged in between: none is given out twice |
| AuditRetention.ActivityLog.LogActivity | backend/prisma/migrations/20261015090000_audit_log/migration.sql:98-123 | An inserted entry is sealed onto the head of the chain |
| AuditRetention.ActivityLog.PurgeCompany | backend/src/audit/retention.ts:21-70 | The purge in place is the purge of the log, and its result the number deleted |
| AuditStream.RowsAreNextInOrder | backend/src/audit/stream.ts:129-160 | A batch is the next surviving entries after the claim's cursor, in order, without a gap, at most 500 |
| AuditStream.NothingIsSkipped | backend/src/audit/stream.ts:66-183 | With any clocks, crashes, reclaims, failures, pauses, purges and saves: every entry from the start to the cursor was sent or purged |
| AuditStream.CursorNeverDecreases | backend/src/audit/stream.ts:66-183 | Every run with given claim times keeps the cursor from going back if and only if no two claims with another between them share a millisecond |
| AuditStream.LateWorkerActsOnlyInTheSameMillisecond | backend/src/audit/stream.ts:84-87 | A worker's update lands exactly when the lock is held and the newest claim carries its own millisecond |
| AuditStream.ApartTakesCursorBack | backend/src/audit/stream.ts:66-183 | For any claim times in which two such claims share a millisecond, a run in which the late worker of the first takes the cursor back |
| AuditStream.SharedMillisecondCanTakeTheCursorBack | backend/src/audit/stream.ts:66-183 | Three claims in one millisecond are enough |
| AuditStream.StepLowersCursorExactly | backend/src/audit/stream.ts:160-183 | A step takes the cursor back exactly when it is an update that carries the newest claim's millisecond, under the lock, of a batch that ends below where that claim found the cursor |
| AuditStream.ClaimedExactly | backend/src/audit/stream.ts:66-82 | A stream is claimable exactly when enabled, due, and unlocked for two minutes; the claim takes the lock and nothing else |
| AuditStream.UpdatedExactly | backend/src/audit/stream.ts:84-183 | A worker's update lands exactly under a lock of its millisecond, and leaves the cursor, failures, next attempt and lock as its outcome says |
| AuditStream.BackoffDoubles | backend/src/audit/stream-format.ts:76-78 | Failures wait a minute, then twice as long each time, up to an hour |
| AuditStream.StreamRow.ClaimNextStream | backend/src/audit/stream.ts:66-82 | The in-place claim is the claim step |
| AuditStream.StreamRow.DeliverBatch | backend/src/audit/stream.ts:118-183 | Delivery in place is the send and settle step, in each of its outcomes |
| AuditStream.StreamRow.Save | backend/src/services/audit.ts:224-244 | Saving the destination keeps the cursor, is due at once, and nobody who claimed before still owns the stream |
| AuditStream.StreamRow.SetStreamEnabled | backend/src/services/audit.ts:264-297 | Resuming is due at once and frees the lock; pausing stops claims but lets the current one finish; both keep the cursor |
| SeekOrder.SeekIsExact | backend/src/services/applications.ts:173-201 | In both scans and with NULL keys on either side, the seek condition is true exactly of the rows after the cursor in ORDER BY |
| SeekOrder.RedundantBoundIsRedundant | backend/src/services/pagination.ts:107-120 | The extra createdAt bound never costs a row |
| SeekOrder.BeforeIsStrictTotalOrder | backend/src/services/pagination.ts:107-120 | ORDER BY key and id is a strict total order, and the flipped scan is its reverse |
| SeekOrder.ListingOrder | backend/src/services/applications.ts:173-201 | Dates and names come in the direction asked, ties by id; scores best first, none last |
| KeysetPages.ReversedScan | backend/src/services/pagination.ts:69-72 | A reversed scan lists the same rows backwards |
| KeysetPages.SeekAfter | backend/src/services/pagination.ts:150-156 | A forward seek lists exactly the suffix of the sorted list past the cursor |
| KeysetPages.SeekBefore | backend/src/services/pagination.ts:150-156 | A backward seek lists exactly the prefix before the cursor, backwards |
| KeysetPages.CursorRoundTrips | backend/src/services/pagination.ts:53-67 | A row's cursor, encoded and resolved, is the row's position, in either direction |
| KeysetPages.CursorCountsExactly | backend/src/services/pagination.ts:122-134 | A page starts at a cursor exactly when the parameter that counts decodes to one the sort can read |
| KeysetPages.BeforeCursorIsReadExactlyWithoutAfter | backend/src/services/pagination.ts:122-133 | A before cursor counts exactly when no after parameter is present: an empty one hides it |
| KeysetPages.PageAfterCursor | backend/src/services/pagination.ts:157-164 | After any cursor, its row still there or not, comes the next slice of the list, or page one when nothing is left |
| KeysetPages.PageBeforeCursor | backend/src/services/pagination.ts:165-185 | Before any cursor comes the slice that ends at it, or page one when no more than a page precedes it |
| KeysetPages.PagesAreSlices | backend/src/services/pagination.ts:135-186 | Page k reached by nextCursor is the slice at k times the page size, with the links of its ends, if the list reaches that far |
| KeysetPages.FollowingNextReadsTheList | backend/src/services/pagination.ts:135-186 | Following nextCursor returns exactly the sorted list, each row once, in ceil(n / pageSize) pages, at least one |
| KeysetPages.ListedInOrder | backend/src/services/pagination.ts:95-120 | That list holds every row once, dates and names as asked, scores best first, none last |
| KeysetPages.PrevUndoesNext | backend/src/services/pagination.ts:135-186 | The Prev link of every page but the first leads to the page it was reached from, page one included |
| KeysetPages.NextOfBackwardPage | backend/src/services/pagination.ts:165-172 | A backward page's Next link leads on exactly when some row is left at or past its cursor |
| KeysetPages.DeletedRowSendsNextToPageOne | backend/src/services/pagination.ts:165-172 | Of three rows the last is deleted: the page before it offers a Next link to page one |
| KeysetPages.ExportRows | backend/src/services/candidates.ts:315-356 | The export loop writes the sorted list, each row once, whatever the batch size |
| KeysetPages.TableReader.Fetch | backend/src/services/candidates.ts:152-164 | Taking the first rows in order one by one is the query: condition, order, limit |
| TenantScope.ScopeTenantArgs | backend/src/tenant-db.ts:109-142 | The stepwise rewrite is the scoped query, and leaves other models alone |
| TenantScope.AcceptedExactly | backend/src/tenant-db.ts:74-142 | A query is refused exactly when its filter or a record it writes names another company, or the relation |
| TenantScope.ScopedArgsBelongToOneCompany | backend/src/tenant-db.ts:86-107 | Rewriting twice is rewriting once, and the client of another company refuses the rewritten filter |
| TenantScope.ScopedMatches | backend/src/tenant-db.ts:86-90 | The scoped filter matches exactly the company's rows that the original matches |
| TenantScope.ScopedDraft | backend/src/tenant-db.ts:109-142 | Every operation, rewritten, does to the company's rows what the original does in a database of that company alone, answers the same, and leaves other rows as they are |
| TenantReferences.GoneExactly | backend/prisma/schema.prisma:667-669 | A delete takes another row exactly when that row loses a cascading reference, over any chain of cascades |
| TenantReferences.SweptHolds | backend/prisma/schema.prisma:667-669 | After a delete no reference dangles: what referred to a row that went, went along or let go of it |
| TenantRuns.ChangesOthersExactly | backend/prisma/schema.prisma:667-669 | A call changes another company's rows of a table exactly when it is a delete and one of them refers to a row that it takes, itself or by cascades |
| TenantRuns.BlockedExactly | backend/src/tenant-db.ts:144-162 | With keys that hold, a call is blocked exactly when its own result repeats no key but has one of another company's row |
| TenantRuns.OwnStep | backend/src/tenant-db.ts:144-162 | A call is answered as it would be alone exactly when it is not blocked, no written reference is satisfied by another company's row alone, and it takes no key that another company's row refers to; then its rows are too |
| TenantRuns.CompaniesDoNotInterfere | backend/src/tenant-db.ts:144-162 | In any run of calls by any companies, with any unique and foreign keys, a company whose references start at home gets the replies of its own calls, unscoped, on a database of its own exactly when none of them is so disturbed; then its rows are those too, and its references stay at home |
| TenantRuns.RunIsolates | backend/src/tenant-db.ts:144-162 | While a company's references stay at home, no run of calls by others changes its rows, deletes and cascades included |
| TenantPolicies.FileOfForeignCandidate | backend/prisma/schema.prisma:667-669 | Company b's resume file for a candidate of company a goes in, would fail alone, and is gone once a deletes the candidate |
| TenantPolicies.VerifiedDomainBlocks | backend/prisma/schema.prisma:327-330 | A verified domain, unique across companies, blocks another company's row with it, which alone would go in |
| TenantPolicies.HomelyRunsMeetInKeysOnly | backend/src/tenant-db.ts:144-162 | While every written reference finds a row of the caller's own, references stay at home in any run, and a company's replies are those of its own calls alone exactly when no unique key of another blocks one |
| TenantPolicies.LookedUpRunsAreHomely | backend/prisma/migrations/20261007090000_tenant_row_level_security/migration.sql:55-72 | Policies that look every parent up, as those of Application and ScoringRun do, would see to that in any run of tenant transactions |
| TenantPolicies.UnviolatedRunsAgree | backend/src/tenant-db.ts:144-162 | Then a company that is never told of a repeated key has the rows and replies of its own calls alone |
| TenantScope.TenantClients.ScopedClient | backend/src/tenant-db.ts:167-177 | The cached client is pinned to its company and the cache never exceeds 1,000 |
| RateLimits.TwoStagesAreOneCheck | backend/src/rate-limit.ts:80-97 | The two checks of the statement admit exactly when peekRateLimit would, as long as no count is negative, and never more |
| RateLimits.RetryReachesTheNextWindow | backend/src/rate-limit.ts:58-60 | The retry time reaches the end of the window, to within a second |
| RateLimits.PrunedRowsNoLongerCount | backend/src/rate-limit.ts:46-56 | A row that pruning may take counts in no window, now or later |
| RateLimits.SlidingWindowHolds | backend/src/rate-limit.ts:62-100 | The units admitted in any interval of length d up to a window never exceed max times (1 + d / windowMs), over any run |
| RateLimits.AdmittedExactly | backend/src/rate-limit.ts:38-120 | After any run of checks, recorded usage, clearing and pruning, a check is admitted, and its cost spent, exactly when the units of the previous window, times the part of it still inside the last windowMs, plus those of this window and the cost, stay within max; peeking says the same |
| RateLimits.WindowHoldsAtMostMax | backend/src/rate-limit.ts:32-40 | No fixed window ever holds more than max |
| RateLimits.Counters.Check | backend/src/rate-limit.ts:62-100 | The statement in place: admitted or refused whole, and the retry time |
| RateLimits.Counters.Peek | backend/src/rate-limit.ts:102-120 | Peeking is the sliding count against max, and spends nothing |
| RateLimits.RecordedUsageCounts | backend/src/rate-limit.ts:122-142 | Recorded usage raises the sliding count by exactly its amount, unless not positive, and no other key notices |
| RateLimits.ClearedKeyStartsAfresh | backend/src/rate-limit.ts:144-146 | After clearing, exactly what fits an empty budget is admitted, in any window, and no other key notices |
| Metering.ReportBatch | backend/src/billing/metering.ts:49-66 | The loop reports the events before the first failure and moves the cursor to where the pass may resume |
| Metering.BatchReachesCursor | backend/src/billing/metering.ts:41-66 | Every eligible run up to the cursor is in the batch and before the failure |
| Metering.PassAdvancesExactly | backend/src/billing/metering.ts:49-69 | A failure-free pass moves the watermark exactly unless it read 500 runs that all finished in the first millisecond past it |
| Metering.CrowdIsNeverPassed | backend/src/billing/metering.ts:36-69 | Once 500 runs finished in one millisecond past the watermark, no passes, overlapping or not, ever take it to that millisecond |
| Metering.FiveHundredRunsStopMetering | backend/src/billing/metering.ts:36-69 | Five hundred runs in the first millisecond stop metering for good |
| Metering.NoRunIsSkipped | backend/src/billing/metering.ts:16-71 | The watermark invariant holds in every state of overlapping, failing and crashing passes |
| Metering.ReachableIsCovered | backend/src/billing/metering.ts:16-71 | Every run with tokens that finished after the start and up to the watermark, within 35 days of the latest pass, is on the meter with its prompt and completion tokens and finish time, and nothing else is |
| Metering.PassIsBeginThenCommit | backend/src/billing/metering.ts:36-69 | A pass without others is a begin and its commit |
| Metering.PassReportsExactly | backend/src/billing/metering.ts:27-66 | A pass reads the first 500 runs past the watermark that are at least five minutes old, and reports those before the first failure that spent tokens and are at most 35 days old |
| Metering.PassCursorExactly | backend/src/billing/metering.ts:48-66 | A pass gets to just before the first failing run, else after 500 runs to just before the last, else to five minutes ago |
| Metering.BeginReads | backend/src/billing/metering.ts:27-46 | A pass starts at the watermark, if that is older than five minutes |
| Metering.CommitMovesExactly | backend/src/billing/metering.ts:66-69 | A pass that ends moves the watermark exactly if it got past where it began, wherever the watermark is by then |
| Metering.LonePassExactly | backend/src/billing/metering.ts:24-71 | A pass alone reports its events and moves the watermark forward or not at all |
| Metering.BillingAccount.ReportAiUsage | backend/src/billing/metering.ts:24-71 | The pass in place: events, watermark and count |
| ByteMasks.MaskIsHighBits | backend/src/auth/ip-allowlist.ts:68-73 | A byte's mask is its kept leading bits |
| ByteMasks.NetworkRoundsDown | backend/src/auth/ip-allowlist.ts:67-73 | The masked bytes are the address rounded down to a multiple of 2 to the bits past the prefix |
| ByteMasks.SameNetworkIsInterval | backend/src/auth/ip-allowlist.ts:108-113 | Two addresses have one network exactly when one lies in the block of the other |
| ByteMasks.StartHasNoHostBits | backend/src/auth/ip-allowlist.ts:100-104 | Masking changes nothing exactly when no host bit is set |
| IpRanges.GapIsFilled | backend/src/auth/ip-allowlist.ts:44-54 | The eight groups of an address with "::" begin with the groups before it, end with those after it, and are zero in between |
| IpRanges.GappedAddressIsWrittenOut | backend/src/auth/ip-allowlist.ts:41-59 | Its bytes are those of the eight groups, the high byte of each first |
| IpRanges.GappedAddressIsTheSame | backend/src/auth/ip-allowlist.ts:41-59 | So they are the bytes of the address with all eight groups written out |
| IpRanges.Ipv4Exactly | backend/src/auth/ip-allowlist.ts:35-43 | Four numbers from 0 to 255 with dots between them are an IPv4 address with these bytes |
| IpRanges.Ipv4Only | backend/src/auth/ip-allowlist.ts:35-38 | No other text is an IPv4 address |
| IpRanges.MappedIsUnwrapped | backend/src/auth/ip-allowlist.ts:20-23 | An IPv4 address behind "::ffff:" in either case is the address it carries |
| IpRanges.OnlyMappedIsUnwrapped | backend/src/auth/ip-allowlist.ts:20-23 | No other text is rewritten |
| IpRanges.AskedExactly | backend/src/auth/ip-allowlist.ts:25-38 | The URL parser decides exactly text with a colon and without brackets, percent sign or slash |
| IpRanges.RefusedBecause | backend/src/auth/ip-allowlist.ts:85-106 | Which error a refused range gets |
| IpRanges.AddressHasItsWidth | backend/src/auth/ip-allowlist.ts:41-59 | An address is 4 or 16 bytes, "::" or not |
| IpRanges.LawfulIsConsistent | backend/src/auth/ip-allowlist.ts:25-33 | What is asked of the URL parser can be met |
| IpRanges.AcceptedExactlyWithoutHostBits | backend/src/auth/ip-allowlist.ts:79-106 | A range that reads as address and prefix is accepted exactly when the prefix is in bounds and no host bit is set |
| IpRanges.ParsedIsRead | backend/src/auth/ip-allowlist.ts:85-106 | Whatever is accepted or refused with a suggestion reads as an address and a prefix in bounds |
| IpRanges.PrintedRangeIsFixedPoint | backend/src/auth/ip-allowlist.ts:61-65 | What is printed, accepting or suggesting, is accepted and printed again, in both families |
| IpRanges.AcceptedIsStored | backend/src/auth/ip-allowlist.ts:85-106 | An accepted range is stored as the bytes and prefix it reads as, without host bits |
| IpRanges.SuggestionHoldsAddress | backend/src/auth/ip-allowlist.ts:100-104 | The range suggested instead has the same prefix and holds the address |
| IpRanges.InRangeIsInterval | backend/src/auth/ip-allowlist.ts:108-113 | An address is in a stored range exactly when it is of its family and in start up to start + 2^(bits - prefix) |
| IpRanges.AllowedExactly | backend/src/auth/ip-allowlist.ts:115-130 | A member may enter exactly as owner, without ranges, or from an address some range covers |
| Base32.Encode | backend/src/auth/mfa/totp.ts:15-30 | The bit buffer, wrapping at 32 bits, prints the unpadded encoding of section 6 of RFC 4648 |
| Base32.EncodingLength | backend/src/auth/mfa/totp.ts:15-30 | n bytes give ceil(8n / 5) letters |
| Base32.RoundTrip | backend/src/auth/mfa/totp.ts:15-30 | Decoding gives the bytes back |
| Base32.LetterExactly | backend/src/auth/mfa/totp.ts:13-30 | Letter i is the one that section 6 of RFC 4648 gives for the i-th five bits of the bytes read as one number |
| Base32.PushByte | backend/src/auth/mfa/totp.ts:21-22 | Pushing a byte appends its bits below the bits waiting, though higher bits wrap away |
| Base32.TakeQuintet | backend/src/auth/mfa/totp.ts:23-26 | Five bits come off the top of those waiting |
| Csv.ReadsField | backend/src/csv.ts:5-9 | A printed field followed by a separator is read as its neutralised value |
| Csv.ReadsWhatWasPrinted | backend/src/csv.ts:5-13 | Printed rows read back as their neutralised cells; a row without cells as one empty cell |
| Csv.PrintedCellsReadBack | backend/src/csv.ts:1-13 | Every printed cell reads back whole, behind an apostrophe exactly if it begins with one of = + - @ tab CR |
| Csv.RoundTripExactly | backend/src/csv.ts:5-13 | So every row does, for any content, exactly when no row is empty |
| Csv.EmptyRowIsAmbiguous | backend/src/csv.ts:11-13 | A row without cells prints as a row of one empty cell |
| Csv.NoCellStartsAFormula | backend/src/csv.ts:1-9 | No cell read back starts with one of = + - @ tab CR |
| Kappa.ChanceIsBounded | backend/evals/scoring/metrics.ts:56-61 | Twice the chance agreement is at most one plus the observed agreement |
| Kappa.KappaIsBounded | backend/evals/scoring/metrics.ts:53-64 | Kappa lies in [-1, 1] and is 1 exactly when every pair agrees |
| Kappa.KappaIsAgreementBeyondChance | backend/evals/scoring/metrics.ts:53-64 | Kappa is the agreement beyond chance as a part of all beyond chance, by counts of the pairs |
| Kappa.CertainChanceMeansAgreement | backend/evals/scoring/metrics.ts:62 | Chance 1 occurs only with observed 1: the guard never returns 0 |

## Left out

- Database mechanics: `SKIP LOCKED`, advisory locks, isolation levels: a step is atomic, and races inside a transaction are not modelled. Of row-level security, the lookups of WITH CHECK are modelled; its USING clauses repeat the rewrite.
- The LLM call, Stripe, SMTP, blob storage and HTTP sends are outcomes chosen by the environment; SHA-256 is any function, injective only where a lemma says so, and the scoring input hash is the hashed record itself.
- JSON, base64url, NFKC folding and the URL parser are parameters; `KeysetPages.RoundTrips` and `IpRanges.Lawful` say what is asked of them. PII redaction is a function of the resume, the name and the policy.
- Floating point: the rate-limit weight and kappa are computed exactly.
- Hard deletions that cascade through applications, runs and evaluations; edits of a candidate's resume text by hand; removing an audit stream.
- Drain loops with their time budgets and lanes, webhooks, and the audit rows, notifications and token charges written beside the modelled updates.
- Role checks, budgets and quotas are answers of the environment.
- Audit `seq` is an unbounded integer; `Number(seq)` beyond 2^53 is not modelled. Audit export and the CSV column layout of exports are left out.
- Ids are ranks in string order; email addresses are taken in lower case, as the case-insensitive comparisons see them.
- Sort keys are numbers: dates and names by their rank. Filters of a list are the fixed table that is paged.
- The loops over companies in purging and over accounts in metering run their bodies independently; one body is modelled.
- Relation filters, `cursor` arguments, nested relation writes and raw SQL of the tenant client: a filter is a condition on the row itself, and operations on models without a company, and references to such models, are not part of the runs. A transaction is one call, and the grants of its role are not modelled.
- `ON UPDATE CASCADE`: a write that changes a key which rows refer to is refused; the source never changes one.
- The suppression list: what a worker saw of it is a parameter, and who adds to it or lifts an entry is not modelled.
- Entries of a range list that parseIpRange did not print: InRange takes a prefix of digits only.
- Webhook delivery, SSO, SCIM, plain CRUD, the frontend and the scripts would only add easy members or repeat the lease pattern.
- ScoringRuns.ReachableIsSafe: does not bound how long a run may wait; nothing here is about scheduling fairness.
- RateLimits.SlidingWindowHolds: is about a key that only its own limiter writes, with a clock that never goes back; recorded usage may exceed the budget by design.
- Metering.ReachableIsCovered: assumes that a run is visible to the batch query before its finish time counts as settled, five minutes later; a transaction open for longer could be missed.
- ScoringRuns.ReachableIsSafe, ResumeQueue.NewestUploadWins and EmailOutbox.PayloadLivesExactlyWhileActive: assume that no requeue falls due before the claim it gives up.
- A worker of the stream reads its batch and makes its request in one step, at most once for a claim.
