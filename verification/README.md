# Revora: verified models of the recovery-case core

Revora recovers failed payments. A *recovery case* walks a table of 14 states; every move goes through one
writer that checks a version, looks up the edge, moves the counters, ends the customer's access tokens when the
case ends, and appends one numbered audit record. Around that writer run sweeps, workers and people, each in
transactions of its own. This project models that core in Dafny and proves what it keeps true over every
interleaving, and proves five smaller algorithms beside it.

**Recovery cases.** `Transitions` builds the edge table the way the program does and proves its closed form;
`CaseModel` gives one case as its committed rows (case row, audit log, tokens) and every transaction as a step on
them, including the transactions the schema rolls back; `CaseInvariants` proves one inductive invariant;
`CaseRuns` proves what follows over whole runs: the log replays to the row, optimistic locking has one winner per
version, endings are final but for one reconciliation, at most 5c + 3 moves for c decision cycles (and some run
takes exactly that many), and the configured cap on decision cycles; `Reentry` models the callers that take a case
back to deciding and proves that they keep that cap; `OptimizerEntry` adds the one caller that does not check it,
with the papers it needs on file, and proves exactly when the cap holds all the same. `CaseManager` is the imperative writer on a locked row, proved
equal to those steps. `TenantModel`, `Sweeps` and `Tenancy` put many cases and the job table behind one `Database`:
between any two transactions of an operation, `Yield` runs whatever other sessions have in hand, so every contract
there holds under interference, and says more when the session is alone.

**Promises to pay.** `PromiseModel` has the clamp and every operation on the promise rows as functions,
`PromiseRuns` the closed form of a sweep pass and what follows from it, `PromiseBacklog` which rows bounded passes
reach, `PromiseLifecycle` the invariant and the two-move bound over every run, and `PromiseManager` the imperative
operations proved against those functions. `PromiseWitnesses` holds short runs from the empty table in which the
sweep does what its descriptions rule out. `JointRuns` runs cases and promises together.

**Smaller algorithms.** `Retention` (batched redaction), `Markup` (escaping), `AuditFields` (truncation of audit
columns), `Arrangements` (single and batched reads), with `Oldest` for bounded oldest-first reads and `JobQueue`
for the deduplicated job table.

Times are integers (microseconds), identifiers are opaque, and the clock never goes back within a session.

## Results that differ from what the repository says

- The cap `MAX_RECOVERY_ATTEMPTS` holds over all runs whose re-entries are guarded exactly when it is at least one
  (`CaseRuns.CapHoldsIff`): the first decision is taken unguarded, and configuration does not exclude zero. Reviews,
  missed promises and refused resends are guarded (`Reentry.CallersAreGuarded`). The optimizer's own entry checks
  neither state nor cap; what holds it back is that it needs estimates, or a recommendation, filed under the case's
  current cycle. A cap of at least one, below the schema's own ceiling of ten, is kept exactly when no estimation
  handler files at a cycle count that has reached it, and no optimizer job that found its recommendation already
  filed reads the version, in its second transaction, when the case is in a later cycle
  (`OptimizerEntry.OptimizerKeepsCapIff`). Each of the two alone passes the cap: a diagnosis job and a candidates job
  delivered late (`OptimizerEntry.LateFilingPasses`), or an optimizer job delivered twice
  (`OptimizerEntry.LateReadingPasses`).
- A promise sweep that reaches its limit does not always leave the rest for the next pass, as
  `revora/customer/promises.py:214` has it. At one instant and with the cases as they are, some repetition of the pass
  claims a due row exactly when fewer than `limit` strictly older due rows belong to cases that have not ended other
  than recovered (`PromiseBacklog.SomePassClaimsIff`), and every long enough one does exactly when that is so of the
  rows no younger than it (`PromiseBacklog.EveryPassClaimsIff`). A full batch of such older rows shuts a row out for
  ever (`PromiseBacklog.BlockedRowsStarve`); `PromiseWitnesses.StarvationHappens` reaches two passes of that kind.
- `revora/customer/promises.py:1070` expects no claimed row to fall through. None does exactly when every claimed row
  has a case and none is already scheduled on a live case inside its window (`PromiseRuns.NothingFallsThroughIff`); a
  row without a case is ruled out by a foreign key, and `PromiseWitnesses.StarvationHappens` contains a row of the
  other kind.
- `revora/customer/promises.py:88-92` has an ended case's promise voided within one interval of the ending. A pass
  over every due row voids it exactly when its follow-up instant has come (`PromiseRuns.EndedPromiseVoidedIff`);
  `PromiseWitnesses.EndedCasePromiseLeft` is one left alone.
- `revora/customer/promises.py:1099` speaks of one transaction per promise; the code runs a pass in one, and so does
  the model.
- An audit log at the schema's ceiling of 10,000 records freezes its case: no component can move it any more
  (`CaseRuns.FullLogFreezes`). Attached events alone lead there (`CaseRuns.CeilingReached`), and an undisturbed expiry
  sweep raises exactly when its batch holds a case whose expiry has no room in the log or whose hook raises
  (`Tenancy.Database.SweepExpiredCases`, `Sweeps.FullCaseStopsTheSweep`).
- The batched arrangement read agrees with the single read, however ties fall, exactly when no two of the case's
  requests share the least pair of instants (`Arrangements.BatchAgreesIff`); `Arrangements.TiedReadsDiffer` is a tie.
- Stale running jobs go back to the queue all together, exactly when no two of them share a key and no other job is
  pending under one of their keys; otherwise none goes back (`JobQueue.ReclaimLandsIff`). One job can be held up by another's key
  (`JobQueue.ReclaimHeldUpByAnother`) or by a running twin (`JobQueue.ReclaimHeldUpByTwin`).
- A finished job can return: a worker whose job was reclaimed and done by another can still fail it back to pending
  (`JobQueue.DoneJobsCanReturn`), and a reclaim that read the job while it ran, without locking it, writes it back
  to pending after its worker has finished it (`JobQueue.DoneJobsCanBeReclaimed`).

## Model

| member | source | states |
|---|---|---|
| Transitions.BuildTable | revora/domain/transitions.py:300-343 | the loops over declared, ending and capture edges build exactly the closed-form table, with 63 edges |
| Transitions.EdgeCostsACycleOrClimbs | revora/domain/transitions.py:137-253 | an edge adds a decision cycle exactly when it enters DECISION_PENDING, and every other edge climbs a fixed rank |
| Transitions.WalkLength | revora/domain/transitions.py:9-48 | every legal walk is at most as long as the rank it gains plus five per decision cycle |
| Transitions.LoopsReenter | README.md:286-289 | every loop passes through DECISION_PENDING |
| CaseManager.RecoveryCase.ApplyLockedTransition | revora/cases/manager.py:219-415 | the only writer of state: three refusals, each exactly when it applies, that change nothing, or the whole move with counters, review instant, tokens, version and record |
| CaseManager.RecoveryCase.WriteForCase | revora/audit/writer.py:157-182 | a record takes the next sequence number allocated on the case row |
| CaseManager.RecoveryCase.RevokeForCase | revora/persistence/repositories/customer.py:101-130 | row by row: every live token ends at that instant and for that reason, every other row is untouched, none is live afterwards, and the count is the number of rows ended |
| CaseManager.RecoveryCase.MintFor | revora/customer/tokens.py:497-630 | reuses an unexpired live token, supersedes an expired one, or issues one that expires within the window; fails without a signing secret, on a closed window, or on a lost insert |
| CaseManager.RecoveryCase.RunOnSuccess | revora/cases/manager.py:409-410 | whatever the hook does, a review instant, a token, further records or giving up, happens in the transition's transaction |
| CaseManager.RecoveryCase.TakeOwnership | revora/cases/ownership.py:83-153 | only a live, unowned case changes, with column and record together; repeated by its owner it changes nothing |
| CaseManager.RecoveryCase.GiveBack | revora/cases/ownership.py:156-204 | any user may release, with one record; an unowned case is left alone |
| CaseManager.RecoveryCase.ApplyMissedDisposition | revora/customer/promises.py:737-835 | commits exactly the disposition function's case and answer, or nothing when the schema refuses the rows |
| CaseInvariants.CountsLive | alembic/versions/0008_customer_response_loop.py:315-326 | counting, finding and uniqueness of live tokens agree |
| CaseInvariants.RevokingEnds | revora/cases/manager.py:357-383 | exactly the live tokens end, at that instant and for that reason; tokens already revoked are untouched |
| CaseInvariants.MintKeepsOneLive | revora/customer/tokens.py:497-630 | minting never leaves two live tokens, and always leaves one |
| CaseInvariants.MintMeaning | revora/customer/tokens.py:531-630 | when a mint gives up, when it reuses, and what a new token is: it ends with its lifetime or the window, whichever is first, every earlier live one is superseded at that instant, and its issue is recorded |
| CaseInvariants.AppendKeepsLog | revora/audit/writer.py:157-182 | one more record keeps the numbering gap-free and the replay equal to the row |
| CaseInvariants.HookKeeps | revora/cases/manager.py:409-410 | after the transition the hook moves the review instant, one token and further records, and nothing else |
| CaseInvariants.NotesStep | revora/audit/writer.py:157-182 | a transaction that only writes records commits them all or none, exactly as the log has room |
| CaseInvariants.NotesWritten | revora/audit/writer.py:157-182 | and the records are the ones that were asked for, in order |
| CaseInvariants.MovedStorable | revora/persistence/models/cases.py:181-204 | a transition of a reachable case can run into two constraints only: the decision-cycle ceiling and the audit ceiling, each exactly when it is reached |
| CaseInvariants.TransactKeepsInvariant | revora/cases/manager.py:321-407 | an attempt, whether applied, refused or rolled back, keeps columns, tokens and log in agreement |
| CaseInvariants.StepKeepsInvariant | revora/cases/manager.py:321-407 | every transaction by any component keeps the invariant |
| CaseInvariants.RunKeepsInvariant | alembic/versions/0001_initial_schema.py:323-324 | every state of every run satisfies the invariant |
| Bounds.BoundMeaning | revora/cases/bounds.py:60-85 | the first of window, cycles, executed actions and messages that is used up, each answer exactly when, on any row |
| Bounds.AttemptsBoundNeverAnswered | revora/cases/bounds.py:60-85 | on a reachable case the executed-action bound is never the answer; none is reached iff window, cycles and messages all have room |
| Bounds.DispositionMeaning | revora/customer/promises.py:737-835 | returning to decision implies room under every bound; stopping leaves a terminal case with no live token and the right reason; otherwise nothing changed |
| Bounds.DispositionCases | revora/customer/promises.py:711-734 | which answer is given, the raised one included, exactly, from the row alone |
| CaseRuns.AppliedIff | revora/cases/manager.py:267-410 | an attempt is applied iff version, edge and capture gate admit it, its hook goes through, and both ceilings have room for it and every record of its transaction; otherwise nothing changes |
| CaseRuns.TransitionEffects | revora/cases/manager.py:321-407 | every effect of an applied transition from its target alone: counters (the message counter for the three actions a customer sees), outbound instant, the exact review instant, reason, tokens, and the exact record |
| CaseRuns.SuccessRecords | revora/cases/manager.py:409-410 | the hook's records close the log, in order, in the name of whoever made the move |
| CaseRuns.TransitionTokens | revora/cases/manager.py:357-383 | an ending revokes every live token at its instant because the case has ended; any other transition without a mint leaves every token alone |
| CaseRuns.RefusalIsRecorded | revora/cases/manager.py:277-318 | which refusal an attempt meets, from the row, and what its record says |
| CaseRuns.DispositionOnRecord | revora/customer/promises.py:783-817 | the record of a disposition: the promise manager's, for the follow-up that was missed, with the limit that was used up |
| CaseRuns.SuppressionEnds | revora/persistence/repositories/customer.py:101-130 | suppressing contact ends every live token for that reason and nothing else |
| CaseRuns.StepFacts | revora/cases/manager.py:352-407 | no counter or window end falls, the version moves only on an applied attempt at that version, and nothing else touches lifecycle columns |
| CaseRuns.EveryCaseAgrees | alembic/versions/0008_customer_response_loop.py:618-640 | over every run: a review instant implies POLICY_CHECK inside the window, an ended case has no live token, at most one token is live, none outlives the window, messages <= executed <= cycles |
| CaseRuns.OneWinnerPerVersion | revora/cases/manager.py:267-283 | among any number of writers, at most one transition is applied per expected version |
| CaseRuns.VersionCountsTransitions | revora/cases/manager.py:352-353 | the version is one more than the transitions applied |
| CaseRuns.EndedStaysEnded | revora/cases/manager.py:285-319 | an ended case moves at most once more, to RECOVERED, on a verified capture; RECOVERED is never left |
| CaseRuns.TransitionsBounded | README.md:286-289 | c decision cycles allow at most 5c + 3 transitions, and no run takes more than 53 |
| CaseRuns.LegalPathsAreWalked | revora/domain/transitions.py:137-253 | every legal path within the two ceilings is walked by attempts at successive versions |
| CaseRuns.BoundAttained | alembic/versions/0001_initial_schema.py:323 | the bound is attained for every number of cycles the schema allows |
| CaseRuns.LogDeterminesCase | revora/cases/manager.py:385-407 | after any run the records carry 1..audit_seq once each and replay to state, version, counters and owner |
| CaseRuns.PastIsReadable | revora/audit/writer.py:157-182 | the finished log's prefix replays to every state the case was ever in |
| CaseRuns.RefusalsNameStatesNeverEntered | revora/cases/manager.py:194-209 | an illegal attempt and the record of its refusal: the record names a state the case never enters, so a replay must skip it |
| CaseRuns.CeilingReached | revora/detection/service.py:336-352 | attached events, each with its record, bring a live case to the audit ceiling |
| CaseRuns.FullLogFreezes | alembic/versions/0001_initial_schema.py:323-324 | a case at the audit ceiling never changes again |
| CaseRuns.CapHolds | revora/cases/review.py:208-213 | no guarded re-entry, from a locked check or from an earlier read at the same version, passes the cap |
| CaseRuns.CapHoldsIff | revora/jobs/pipeline.py:877-890 | the first decision being unguarded, the cap holds over all runs with guarded re-entries exactly when it is at least one |
| Reentry.CallersAreGuarded | revora/jobs/pipeline.py:1255-1405 | a run whose re-entries come from reviews, missed promises or refused resends is guarded |
| Reentry.CallersKeepTheCap | revora/cases/bounds.py:60-85 | beside anything else that runs, those callers never take a case past a cap of at least one |
| Reentry.ResendMeaning | revora/execution/resend.py:354-412 | a refused resend waits for the window sweep once the window is over, returns the case while a cycle and a message are left, and otherwise stops it for the limit used up |
| Reentry.ReviewInHistory | revora/jobs/pipeline.py:1255-1405 | a review's read and later attempt in a tenant's history are a review in its case's own run |
| Reentry.ReviewLands | revora/jobs/pipeline.py:1354-1405 | an applied review met the case as read: at the cap it is stopped for having reached it, without a live token, otherwise it spends one cycle within the cap; either way its record closes the log |
| OptimizerEntry.PunctualKeepsCap | revora/jobs/pipeline.py:853-875 | with no late filing and no late reading, any mix of handlers in any order keeps a case within the cap, and every version a handler holds was read below it |
| OptimizerEntry.WorkKeepsDesk | revora/optimizer/service.py:195-228 | each single act keeps that: papers are filed, and tickets taken, below the cap only |
| OptimizerEntry.LateFilingPasses | revora/jobs/pipeline.py:786-826 | for every cap below the ceiling a run in which a late diagnosis and late candidates let the optimizer pass it |
| OptimizerEntry.LateReadingPasses | revora/jobs/pipeline.py:2436-2445 | for every cap from one to nine a run in which a second optimizer job reads a later version and passes it |
| OptimizerEntry.OptimizerKeepsCapIff | revora/jobs/pipeline.py:829-890 | over all runs of the four callers and the handlers that file for them, the cap is kept iff neither happens (or the ceiling is no higher); a cap of zero iff no estimates are filed at all |
| JobQueue.AtMostOnePending | alembic/versions/0001_initial_schema.py:514-517 | whatever enqueues, claims, finishes or puts back, a key never has two pending jobs |
| JobQueue.JobsMoveOnlySo | revora/jobs/queue.py:97-263 | only a claim starts a pending job, only its worker finishes it, only a failed attempt or a reclaim makes it pending again; only an enqueue adds one |
| JobQueue.ReclaimLandsIff | revora/jobs/queue.py:229-263 | whatever has become of them since the read, the jobs a reclaim read go back whole iff their keys are pairwise distinct and no other job is pending under one of them; otherwise nothing changes |
| JobQueue.RetryLandsIff | revora/jobs/queue.py:187-226 | a failed attempt puts its job back iff no other pending job holds its key |
| JobQueue.ReclaimHeldUpByAnother | revora/jobs/queue.py:229-263 | a run after which a job with a free key is not reclaimed because another's key is taken |
| JobQueue.ReclaimHeldUpByTwin | revora/jobs/queue.py:229-263 | a run after which two running jobs share a free key and neither is reclaimed |
| JobQueue.DoneJobsCanReturn | revora/jobs/queue.py:170-226 | a run in which a finished job becomes pending again |
| JobQueue.DoneJobsCanBeReclaimed | revora/jobs/queue.py:243-260 | a run in which a job read as stale is done before the reclaim writes it, and is pending again |
| JobQueue.KeysNeverCollide | revora/cases/review.py:64-82 | per-case keys name kind and case, and never equal a periodic sweep's key |
| JobQueue.EnqueueingReview | revora/persistence/repositories/jobs.py:43-89 | queueing a review leaves exactly that case's review pending and adds a job only if none was |
| Oldest.SelectOldest | revora/persistence/repositories/cases.py:274-333 | an ORDER BY ... LIMIT read: the right number of due rows, oldest first, none older left out |
| Oldest.ReadBatch | revora/cases/retention.py:193-214 | reading one row past the limit tells whether more are due, and keeps the oldest |
| TenantModel.HistoryKeepsValid | revora/cases/manager.py:165-209 | any history of any sessions keeps every case's invariant and the queue's index |
| TenantModel.CaseGoesThroughItsRun | revora/cases/manager.py:165-209 | what a tenant's history does to a case is a run of that case, so every per-run theorem applies |
| TenantModel.UnmovedMeansUnchanged | revora/cases/review.py:196-207 | an unmoved version means no lifecycle column has moved, whoever ran in between |
| Sweeps.ExpiryIsSafe | revora/cases/sweeper.py:81-107 | an applied expiry took a live case, unmoved since the read, whose window end had passed, and left it EXPIRED for that reason, its links dead, its record and the hook's behind it |
| Sweeps.BatchMeaning | revora/persistence/repositories/cases.py:274-293 | the expiry batch column by column: live, over, longest first, one left out only by a full batch |
| Sweeps.ExpiriesShrinkDue | revora/cases/sweeper.py:81-107 | an undisturbed pass takes exactly its cases out of the due set |
| Sweeps.VersionCarriesReview | revora/cases/review.py:196-213 | whatever runs between read and lock, the review re-check can fail on the version only |
| Sweeps.ReviewBatchMeaning | revora/persistence/repositories/cases.py:295-333 | the review batch column by column: at POLICY_CHECK, below the cap, instant reached, longest first, one left out only by a full batch |
| Sweeps.QueuedNow | revora/cases/review.py:214-221 | each job queued names a case due at the read, unmoved, at POLICY_CHECK, under the cap, with none pending |
| Sweeps.DrainedRest | revora/cases/startup.py:61-70 | an emptied due set means no due case had a full log; what is left due is what was not taken |
| Tenancy.Database.ApplyTransition | revora/cases/manager.py:125-216 | two transactions: the attempt alone changes the case; a refusal is recorded after whatever others committed in between, as a version conflict exactly when the version had moved and as an illegal transition otherwise, naming the state it met, its target and its reason |
| Tenancy.Database.AssignOwner | revora/cases/ownership.py:83-153 | four outcomes and no other, each iff its condition on the row; the two columns and the record of who took it commit together or neither does |
| Tenancy.Database.ReleaseOwner | revora/cases/ownership.py:156-204 | three outcomes and no other, each iff its condition on the row; the two columns and the record of who gave it back commit together or neither does |
| Tenancy.Database.ActLater | revora/cases/manager.py:165-192 | a decision made on an earlier read is attempted after whatever others did, and applied exactly where the history says so |
| Tenancy.Database.HandleReview | revora/jobs/pipeline.py:1200-1405 | acts only at POLICY_CHECK, or waiting for an outcome with a promise due; files the estimators' records below the cap, or raises if the log has no room; then, if there is a move, makes it at the version it read: applied, it met the case as read, kept the cap or stopped the case for having reached it, and put the review on record |
| Tenancy.Database.SweepExpiredCases | revora/cases/sweeper.py:54-107 | its batch is the live cases over longest; each is attempted once at the version read and those applied are counted; wherever one was applied, the case ended EXPIRED with RECOVERY_WINDOW_ELAPSED, no live token and the sweeper's record; alone, every case of the batch ends so and no other changes, or it raises iff some case of the batch cannot be expired |
| Sweeps.FullCaseStopsTheSweep | revora/cases/sweeper.py:89-107 | a tenant on which every undisturbed sweep must raise |
| Tenancy.Database.ReevaluateOnStartup | revora/cases/startup.py:43-70 | the total counts the applied expiries, each of a case due when a pass read it and ended as an expiry ends it; alone, it expires exactly min(n, 100 x 500) of n due cases, all of them when fewer; up to that many, it raises iff some due case's log is full |
| Tenancy.Database.EnqueueCaseReview | revora/cases/review.py:85-117 | queues the case's one review job exactly when none is pending under its key |
| Tenancy.Database.EnqueueOne | revora/cases/review.py:174-221 | queues iff the case is at the version read, at POLICY_CHECK with a review instant, below the cap, and no job is pending under its key |
| Tenancy.Database.SweepDueReviews | revora/cases/review.py:120-171 | its batch is the cases waiting below the cap longest past their review instant; every job it queues names one that still waited below the cap, at the version read, with none pending; alone, every case of the batch ends with one pending and the count is the jobs added |
| PromiseModel.PlanMeaning | revora/customer/promises.py:340-415 | for a date after submission: escalated iff the date is at or past the window end or the margin leaves no room; otherwise submission <= follow-up <= end - margin, clamped exactly when the offset overshoots |
| PromiseModel.FreshStorableIff | alembic/versions/0008_customer_response_loop.py:557-576 | the schema takes a fresh promise exactly under a condition on its inputs |
| PromiseModel.AcceptedDatesAreStorable | revora/customer/signals.py:752-769 | with a positive margin no date the two guards let through can offend the schema |
| PromiseModel.LeadTimeSubsumesIff | revora/customer/signals.py:457-465 | the lead-time guard covers the future-date guard exactly at a positive lead time |
| PromiseModel.DateRefusedMeaning | revora/customer/signals.py:752-769 | which of the two date refusals is given, and when |
| PromiseModel.WholeSecondsTruncate | revora/customer/promises.py:638 | the signed interval is truncated toward zero on both sides |
| PromiseManager.PromiseDesk.Update | revora/persistence/repositories/customer.py:622-661 | the conditional update moves a row only out of an expected status and says whether it did |
| PromiseManager.PromiseDesk.InsertIfAbsent | revora/persistence/repositories/customer.py:599-620 | inserts iff the case has no row and the checks hold; a failed check raises |
| PromiseManager.PromiseDesk.RecordPromise | revora/customer/promises.py:451-593 | whatever rivals commit between count and insert, the rows end as if this submission had run after them; refused iff the case holds one or none is allowed; otherwise its columns are the submission's and the plan's, and the escalation is queued with it |
| PromiseManager.PromiseDesk.ResolveKept | revora/customer/promises.py:601-659 | from pending or escalated only, the row becomes kept with the paid instant and the signed whole seconds; nothing else changes |
| PromiseManager.PromiseDesk.ResolveMissed | revora/customer/promises.py:662-708 | missed at that instant iff pending and a follow-up was confirmed; nothing else changes |
| PromiseManager.PromiseDesk.FollowUpWasConfirmed | revora/customer/promises.py:940-957 | true iff some intent is a confirmed follow-up |
| PromiseManager.PromiseDesk.MarkFollowUpScheduled | revora/customer/promises.py:838-881 | a recorded promise becomes scheduled, and nothing else changes |
| PromiseManager.PromiseDesk.VoidForTerminalState | revora/customer/promises.py:884-937 | raises on a live or recovered state; otherwise a pending row becomes voided for that state, and nothing else changes |
| PromiseManager.PromiseDesk.Evaluate | revora/customer/promises.py:1146-1211 | what becomes of one claimed row, from its case's state, its window and its status, in that order of precedence; a review is added only at POLICY_CHECK or WAITING_FOR_OUTCOME inside the window, unless one is pending |
| PromiseManager.PromiseDesk.SweepDuePromises | revora/customer/promises.py:1089-1223 | claims the unlocked pending rows due longest; each row ends as its columns and its case's state say, and the tally counts the rows scheduled, voided and skipped and the reviews added |
| PromiseRuns.PassClosedForm | revora/customer/promises.py:1146-1211 | a pass depends only on which rows it claimed: each by its own branch, all others as they were, reviews added only for rows that ask |
| PromiseRuns.PassMeaning | revora/customer/promises.py:1146-1211 | every row after a pass from its columns and its case's state, and exactly which reviews are pending |
| PromiseRuns.ScheduledExactlyWhen | revora/customer/promises.py:1177-1196 | a recorded promise is scheduled iff claimed with its case read live and its window open |
| PromiseRuns.TallyMeaning | revora/customer/promises.py:1064-1087 | scheduled, voided and skipped are the numbers of claimed rows with those columns and case states |
| PromiseRuns.ClaimMeaning | revora/persistence/repositories/customer.py:674-701 | the claim column by column: pending, due, unlocked, longest first, one left out only by a full batch |
| PromiseRuns.VoidedExactlyWhen | revora/customer/promises.py:1165-1177 | a pending promise is voided iff claimed and its case ended other than recovered, and never before its follow-up instant |
| PromiseRuns.BranchesPartition | revora/customer/promises.py:1064-1087 | considered = scheduled + voided + skipped + rows already scheduled or without a case |
| PromiseRuns.SecondPassIdle | revora/customer/promises.py:1146-1211 | a second pass at the same instant over rows already swept changes no promise and no job |
| PromiseRuns.SecondPassClaimsTheSame | revora/customer/promises.py:1146-1211 | when the first pass claimed every due row, any second pass at that instant changes nothing |
| PromiseRuns.DisjointPassesDoNotMeet | revora/persistence/repositories/customer.py:674-701 | passes with disjoint claims, interleaved row by row, move each row once as its own pass would |
| PromiseRuns.NothingFallsThroughIff | revora/customer/promises.py:1064-1087 | considered is scheduled + voided + skipped iff every claimed row has a case and none is already scheduled on a live case in its window |
| PromiseRuns.EndedPromiseVoidedIff | revora/customer/promises.py:84-93 | a pass over every due row voids an ended case's pending promise iff its follow-up instant has come |
| PromiseBacklog.DueAfterPass | revora/persistence/repositories/customer.py:674-701 | a pass leaves due exactly the rows it did not claim and the claimed rows of cases not ended other than recovered |
| PromiseBacklog.ClaimedIffReached | revora/persistence/repositories/customer.py:674-701 | a due row is claimed when fewer than the limit stand before it, and only if fewer are older |
| PromiseBacklog.ReachedIff | revora/customer/promises.py:208-216 | no repetition of the pass claims a due row while the limit of strictly older rows stay; one pass more than there are rows no younger is enough while fewer than the limit of those stay; with no tied row staying the two conditions are one |
| PromiseBacklog.SomePassClaimsIff | revora/customer/promises.py:208-216 | some repetition of the pass claims a due row iff fewer than the limit strictly older rows stay, ties or not |
| PromiseBacklog.EveryPassClaimsIff | revora/customer/promises.py:208-216 | a due row is sure to be claimed within some number of passes, however ties fall, iff fewer than the limit other rows no younger stay, and then within one more than there are rows no younger |
| PromiseBacklog.BlockedRowsStarve | revora/customer/promises.py:208-216 | a full batch of older rows whose cases do not end other than recovered shuts out a younger one, over passes at any instants |
| PromiseBacklog.SaturatedSecondPass | revora/customer/promises.py:1146-1211 | the next pass takes the rows the first left due, the oldest: a survivor is claimed again unless a row of exactly its age is taken instead, and the room left goes to the oldest rows not reached |
| PromiseBacklog.SurvivorsUnmoved | revora/customer/promises.py:1146-1211 | claiming a survivor again moves nothing and adds no review |
| PromiseWitnesses.StarvationHappens | revora/customer/promises.py:1146-1211 | a run from the empty table: two full passes, the second idle with a row falling through, a due row never claimed |
| PromiseWitnesses.EndedCasePromiseLeft | revora/customer/promises.py:84-93 | a run from the empty table: a stopped case's promise that no pass may claim yet |
| PromiseLifecycle.BookStepKeeps | alembic/versions/0008_customer_response_loop.py:557-576 | every step keeps the rows' columns in agreement and moves each row legally or not at all |
| PromiseLifecycle.AtMostTwoMoves | revora/persistence/repositories/customer.py:622-661 | over every run a promise changes status at most twice |
| PromiseLifecycle.FinalIsFinal | revora/customer/promises.py:601-937 | kept, missed and voided promises never change again; an escalated one can only become kept |
| PromiseLifecycle.EveryPromiseAgrees | alembic/versions/0008_customer_response_loop.py:557-601 | kept_at iff kept, seconds fixed by the two instants, the voiding state ended and not recovered, one escalation job ever iff no follow-up was possible |
| PromiseLifecycle.EscalationIsQueued | revora/customer/promises.py:546-572 | an escalation is never deduplicated away |
| PromiseLifecycle.ReachedStaysReached | revora/customer/promises.py:965-1004 | a due promise may be followed up, and stays so until it is resolved |
| JointRuns.VoidedNamesTheEnding | revora/customer/promises.py:884-937 | the state a voided promise names is one its case really ended in, and the case is still there or reconciled since |
| JointRuns.UnpaidReadMeaning | revora/outcome/monitor.py:419-452 | a read without money changes something only for a pending promise with a confirmed follow-up: the promise is missed and its case disposed of, both or neither |
| JointRuns.MissedWasDisposed | revora/outcome/monitor.py:419-452 | behind every missed promise stands exactly one transaction, and it disposed of its own case: returned with room under every limit, stopped for the limit used up with no live token, or left alone |
| Retention.RedactedTwice | revora/cases/retention.py:163-311 | redacting in two batches is redacting both at once |
| Retention.PayloadsSplit | revora/cases/retention.py:226-238 | a payload erased with one batch is neither there nor counted with the next |
| Retention.RedactedKeepsCheck | alembic/versions/0008_customer_response_loop.py:378-381 | a row that says its note was redacted holds none |
| Retention.PassMeaning | revora/cases/retention.py:163-311 | one pass column by column: which rows, what became of them, live cases untouched, and the figures |
| Retention.DrainMeaning | revora/jobs/worker.py:301-327 | a finished drain column by column |
| Retention.PassesNeededIsLeast | revora/jobs/worker.py:301-327 | the number of passes is the least, at least one, whose batches hold all rows |
| Retention.ZeroLimitStalls | revora/cases/retention.py:193-214 | with a zero limit a pass redacts nothing and reports more as long as anything is due |
| Retention.RetentionSweep.RedactCases | revora/cases/retention.py:193-243 | erases the contact of exactly the oldest ended, overdue cases up to the limit, and the payload that opened them; live cases and events that opened only such keep everything |
| Retention.RetentionSweep.RedactNotes | revora/cases/retention.py:314-405 | deletes exactly the oldest overdue notes up to the limit, stamping instant and version; every other row is as it was |
| Retention.RetentionSweep.Sweep | revora/cases/retention.py:163-311 | both passes under one instant and configuration, what became of every row, live cases untouched, the exact figures, and a record only if something was redacted |
| Retention.RetentionSweep.Drain | revora/jobs/worker.py:301-327 | repeated to the end, each pass at its own instant and configuration: every row redacted once, at a pass at whose cutoff it was overdue, live cases untouched and nothing overdue left; while the cutoff does not go back, a contact or note is gone iff it was overdue at the last one; at one cutoff, in exactly the passes its batches need |
| Markup.EscapeMarkup | revora/api/rendering.py:270-293 | five passes in order equal one simultaneous substitution |
| Markup.OrderMatters | revora/api/rendering.py:242-268 | an order of the five passes is correct on every text iff the ampersand goes first |
| Markup.EscapedConcat | revora/api/rendering.py:270-293 | escaping distributes over concatenation |
| Markup.NothingRaw | revora/api/rendering.py:242-268 | no raw angle bracket or quote is left |
| Markup.DisplayRestores | revora/api/rendering.py:270-293 | reading the entities left to right gives the text back |
| Markup.EscapingIsInjective | revora/api/rendering.py:270-293 | two texts that escape alike are the same |
| Markup.EscapingTwice | revora/api/rendering.py:285-288 | a second escape changes the text exactly when the first did |
| AuditFields.JsonTruncation.Walk | revora/audit/writer.py:255-275 | the walk with its flag builds the pure tree map and raises the flag iff some leaf was too long |
| AuditFields.SameShapeEverywhere | revora/audit/writer.py:255-275 | at every path both trees have the same kind of node with the same keys, texts cut to a prefix |
| AuditFields.LongLeafIffSomePath | revora/audit/writer.py:255-275 | the flag condition means some path leads to a text over the bound |
| AuditFields.TruncatedSettles | revora/audit/writer.py:255-275 | a tree changes iff it had a long leaf, and the result has none |
| AuditFields.TruncatingTwice | revora/audit/writer.py:255-275 | a second pass changes nothing |
| AuditFields.LessMeans | revora/audit/writer.py:277-282 | the order of names: a name before its continuations, otherwise the first difference decides |
| AuditFields.Prepare | revora/audit/writer.py:209-282 | four named columns cut at every leaf, five as a whole, the rest untouched, and the alphabetical list names exactly those that changed, absent iff none did |
| AuditFields.NamesDoNotDependOnOrder | revora/audit/writer.py:277-282 | the list does not depend on the order the columns were visited in |
| Arrangements.FirstArrangementRequest | revora/customer/arrangements.py:149-181 | a request of the case with none submitted, or at the same instant stored, before it, shown with the instant it was submitted; none iff the case made none |
| Arrangements.ArrangementRequests | revora/api/views.py:1415-1470 | the first row of each case in the scan, shown with the instant it was submitted, cases without one absent |
| Arrangements.KeptRowIsFirst | revora/api/views.py:1438-1470 | in any legal scan the kept row is an earliest request of its case, one the single read could return |
| Arrangements.BatchAgreesIff | revora/persistence/repositories/customer.py:357-389 | the two reads agree, however ties fall, iff no two of the case's requests share the least pair of instants |
| Arrangements.DistinctInstantsAgree | revora/api/views.py:1422-1431 | with instants distinct within the case the two reads always agree |
| Arrangements.TiedReadsDiffer | revora/api/views.py:1438-1470 | two requests at one instant, and two legal reads that name different ones |

## Left out

- SQL, row-level security, HTTP, the browser application, logging and migrations as mechanisms: only the CHECK
  constraints and partial unique indexes are modelled, as conditions a transaction must meet to commit.
- Masking, hashing and encryption: the audit columns are modelled from the masked record on.
- What success hooks write outside the case's own rows (training observations, follow-on jobs), and the estimates
  themselves: which cycles have papers on file is modelled, what they say is not.
- Records written in a transaction before its transition appear as a transaction of their own just before it.
- How the policy engine, optimizer, estimators and provider client decide; the model lets them attempt anything.
- Opening a case between two transactions of a sweep, and the wall clock: the clock is a monotone integer, fixed
  within a transaction.
- Reloading the configured cap between two decisions of one case: a run is judged against one value.
- The rendering of decision payloads inside audit records, beyond reason, states, action, user and tokens ended.
- Token fields other than expiry and revocation; the reason KEY_RETIRED exists but no code writes it.
- The job table's attempts, delays and run-after ordering, and which running jobs count as stale.
- The rounding of `total_seconds` through a float, which can only matter for intervals of centuries.
- The process-local set of blocked cases in the audit writer.
- Negative limits and bounds where the database or configuration refuses them first.
- Retention.RetentionSweep.Drain: what other sessions write between two of its passes is not modelled.
- PromiseManager.PromiseDesk.SweepDuePromises: a pass is one transaction here, so a failure part-way leaves nothing;
  other sessions are modelled by the state each case is read in and by the rows they have locked.
