# Course-selection service: a verified model

The service lets a student preview a batch of course adds and drops, confirm it once, and have a single
worker submit it to the school's own web form. This project models the parts of it where several actors or
several functions must agree, and proves what they agree on:

- **The write-submission protocol** (`Protocol`, `ProtocolInvariant`, `ProtocolTheorems`, `Confirmation`, `JobRows`,
  `PostWindow`, `Superseding`, `Misreading`, `Statuses`, `Ledger`, `Reconcile`, `Engine`). Previews mint confirm tokens, submit handlers spend them,
  insert a job row and push a ticket, logins supersede active jobs, one worker pops, claims, audits, reads the
  form, posts, reconciles and closes, a sweep reaps what was abandoned, and anything may crash between two
  committed steps. `Protocol.Apply` is one step of one actor; `Protocol.Run` any interleaving of them. The
  theorems hold for every state reachable from an empty site, with tickets popped in any order, duplicated or
  lost. `Engine.Site` writes `execute_ticket`, `sweep_once`, `write_queue_loop`, `post_write_submit` and
  `record_successful_login` as the imperative programs they are, over the `JobLedger` tables; between two
  statements an unknown run of every other actor is inserted, and each statement must leave the tables exactly
  as its protocol step says. So each program run is a protocol run, and the theorems are about the programs.
- **The batch pipeline** (`Ops`, `Digits`, `Canonical`, `Segments`, `Timetable`, `Preview`, `PreviewInputs`,
  `Payload`, `PreviewToWire`, `ShownPayload`): sort and collapse, print and parse, greedy clash verdicts, and the posted
  form, with the theorems that need all of them.
- **Timed keys** (`Redis`, `Breaker`, `Lockout`, `JarStore`, `IngestLock`): one method call is one atomic step,
  a key with expiry `e` is visible at `now` exactly when `now < e`, and the theorems are about whole histories
  of calls.
- **The throttle** (`Throttle`): two semaphores around a backoff loop, over all interleavings of calls.
- **Index, layout and merge algorithms** (`Snapshot`, `GridPlan`, `Timeslots`, `Conflicts`, `Totals`,
  `SelectionGrid`, `Priority`, `Composer`), the audit archive (`AuditLifecycle`) and the handoff walk
  (`Handoff`).

A method is proved against a function or predicate that says what it computes; what that means is then proved
as lemmas about the function. Hashes and tokens are taken as injective: a hash is its own preimage. Clocks,
passwords, school answers, database listings and crashes are arbitrary values at the point where they are read.

## Main results

1. Over every interleaving of submits, logins, pops, sweeps and crashes, a job is claimed at most once, gets one set
   of audit rows before any school call, and is posted at most three times, each time as the one form page that was
   read for it with its batch filled in (`ProtocolTheorems.AtMostOnce`, `ProtocolTheorems.SchoolCallIsAudited`,
   `ProtocolTheorems.PostsCarryTheBatch`). A job that has ended may still be posted in exactly one window
   (`PostWindow.EndedIsPostedExactlyInTheWindow`).
2. Terminal rows are frozen against every actor, a login wins over every later write, and status and audit rows say what
   the school answered (`ProtocolTheorems.TerminalIsAbsorbing`, `ProtocolTheorems.SupersedeWins`,
   `Statuses.StatusTellsWhatHappened`, `Superseding.SupersededRowsAreHonest`, `ProtocolTheorems.RecordedAsAnswered`).
   A confirm token opens a submit exactly within its time and for its student, once, and every change of a job row has
   its writer, its instant and its clock (`Confirmation.TokenLivesItsTime`, `JobRows.ChangesAreStamped`,
   `JobRows.ClaimIsFresh`).
   A row settled from slt_result is right exactly when the reading by the long code agrees with the op's own number, and
   every list on which it does not is some run's wrong outcome (`Misreading.RecordedAsListedExactly`,
   `Misreading.EveryMisreadingIsRecorded`).
3. The programs of the worker and of the submit endpoint are runs of that protocol, whatever happens between their
   statements (`Engine.Site.ExecuteTicket`, `Engine.Site.WriteQueueLoop`, `Engine.Site.PostWriteSubmit`).
4. Payload hashes identify student and canonical batch, an all-ok preview reaches the wire as exactly its batch, and the
   payload it shows is the posted one under an exact condition (`Segments.KeyFaithful`,
   `PreviewToWire.PreviewReachesTheWire`, `ShownPayload.ShownIsPostedExactly`).
5. Greedy verdicts are sound, complete and unique (`Preview.BlockedExactlyByClash`, `Preview.JudgementIsUnique`).
6. Exact laws for the timed keys: when the breaker stamps, admits and refuses, the most failures a window can hold when
   attempts overlap, when a parked jar is returned (`Breaker.StampedExactlyOnChain`, `Lockout.WindowBound` with
   `Lockout.BoundIsReached`, `JarStore.LoadsExactly`).
7. The throttle is bounded, free of deadlock and terminating (`Throttle.InFlightBounded`, `Throttle.NeverDeadlocked`).
8. The in-place catalog replacement is "the first row per identity", and repeating it changes nothing
   (`Snapshot.SnapshotIsTheScrape`, `Snapshot.ReplacingAgainChangesNothing`).
9. The row-span plan is a lossless maximal tiling; hours equal distinct cells exactly when nothing clashes; merged
   blocks are order-free unions (`GridPlan.PlanIsLossless`, `Totals.HoursCountCells`, `SelectionGrid.MergeIgnoresOrder`).
10. No crash of the audit lifecycle loses a row (`AuditLifecycle.Lifecycle.RunLifecycle`).

## Where the code differs from its comments

- The queue is last in, first out: tickets are pushed at the right end (`backend/app/write/queue.py:74`) and
  popped from it (`backend/app/worker.py:72`), although both sides call it a FIFO. `Engine.Site.PopNewest`
  pops as the code does; the theorems hold for any pop order.
- `retried` in the engine counts the engine's own calls of `post_write`. Each of them may make up to five
  attempts on the wire, which the engine never learns (`Throttle.RequestWithBackoff`).
- A job that has ended may still be posted. From a reachable state some continuation posts an ended job if and only if
  its execution is past the last status read and about to send, or has a call out that is not the last one
  (`PostWindow.EndedIsPostedExactlyInTheWindow`). Every batch that parses reaches that window with every form page it
  fits on, and a login there supersedes the job while the post goes out (`PostWindow.SupersededJobMayStillBePosted`).
- The lock check and the recording of a failure are separate steps around the school call
  (`backend/app/api/auth.py:174-195`), so the failures of a window stay within the budget if and only if attempts of
  one account never overlap (`Lockout.BudgetHoldsExactlySerialized`). With at most `c` of them out at a time a window
  holds at most `max(limit, c) + c - 1` failures (`Lockout.WindowBound`), and for every limit and `c` some history
  reaches that number (`Lockout.BoundIsReached`).
- A failed half-open probe does not always restart the breaker's wait. It does so exactly while the streak key
  is still alive, or when the threshold is at most one (`Breaker.FailedProbeRestamps`, with a concrete history in
  `Breaker.LateFailedProbeDoesNotRestartTheWait`).
- `canonical_ops` ignores the order of its input exactly when no two adds of one code carry different priorities
  (`Canonical.OrderInsensitiveExactlyWhenAgree`). A writable preview meets this whenever its adds were resolved
  against a catalog with unique ids and codes and every added course has class hours
  (`PreviewToWire.RepeatedAddsHaveNoHours`).
- Printing and parsing segments are inverse exactly on non-empty batches whose codes are non-empty and free of
  `:` and `|`; the empty batch does not come back (`Segments.RoundTripExactly`).
- The fused time cell is read with a pattern that stops at period `E`, so every cell that names period `F`, alone or
  among others, has no timetable (`Timetable.FusedCellsNeverReadF`). A selection known by such a cell only is no clash
  target: the preview judges every op as if it were not held (`PreviewInputs.PeriodFTakesNoPart`).
- Reconciliation looks a course up by its long code (`backend/app/write/reconcile.py:46-52`), while an op names it by
  the short number (`backend/app/api/write.py:148-152`). For a row listed as selected under code M3046243 and number
  CSE515 an add of CSE515 is settled as rejected and a drop of it as a success (`Reconcile.LiveRowIsMisread`), and
  reachable jobs close that way (`Misreading.LiveRowIsMisrecorded`). Whatever the states, the reading is right if and
  only if the last row with that long code is the last row with that number, or there is neither
  (`Reconcile.ReadsRightExactly`).
- The previewed payload is described as byte-identical to the posted one (`backend/app/write/payload.py:34-38`). Filled
  in from one page they carry the batch in the same rows, and are equal if and only if every link parameter is a hidden
  input already and sending pins no step other than the form's own (`ShownPayload.ShownIsPostedExactly`). On a page with
  a blank hidden step and pin 2 they differ (`ShownPayload.LiveFormIsNotAsShown`).
- After a crash the ingest is said to lose one tick, at the peak as off-peak. It loses at most one if and only if the
  second tick after the crash comes no earlier than the lock's lapse (`IngestLock.OneTickLostExactly`). With the shipped
  expressions a round that dies at 23:07 on the eve of a peak day costs seven (`IngestLock.EveOfPeakLosesSeven`).
- The catalog replacement leaves unique identities exactly when no two existing rows shared an identity that was
  scraped again (`Snapshot.DistinctAfterExactly`): such twins are both kept, and only the one listed last is
  updated (`Snapshot.TwinsAreKept`). No sequence of replacements from unique identities, or from the empty catalog,
  makes such twins (`Snapshot.DistinctForGood`).
- Re-reading a dragged wish list shows the dragged order exactly when what lies past the twentieth place kept its
  incoming order (`Priority.DragSurvivesExactly`).
- An archive file whose run died before its ledger row was committed is known to no later run and stays on disk;
  only files with an expired ledger row are ever deleted (`AuditLifecycle.Lifecycle.RunLifecycle`).

## Model

| member | source | states |
|---|---|---|
| Canonical.CanonicalOps | backend/app/write/canonical.py:56-64 | the result is strictly sorted by action and code and holds exactly the earliest op of each key |
| Canonical.CanonKeepsFirsts | backend/app/write/canonical.py:56-64 | sort and collapse keep, for every key, its first op and nothing else |
| Canonical.CanonIdempotent | backend/app/write/canonical.py:56-64 | canonicalizing twice is canonicalizing once |
| Canonical.CanonIgnoresOrder | backend/app/write/canonical.py:100-105 | batches with the same ops and agreeing priorities have one canonical form |
| Canonical.OrderInsensitiveExactlyWhenAgree | backend/app/write/canonical.py:56-64 | every permutation canonicalizes alike if and only if no two adds of one code differ in priority |
| Canonical.CanonOrder | backend/app/write/canonical.py:31-59 | drops before adds before rest rows, and ascending distinct codes within a kind |
| Segments.CanonicalSegments | backend/app/write/canonical.py:67-73 | the loop prints the `act:code:TT` segments joined by bars |
| Segments.SegmentText | backend/app/write/canonical.py:69-72 | a segment is the sign, the code and, for an add only, its priority in two digits, with colons between |
| Segments.ParseCanonicalSegments | backend/app/write/canonical.py:76-97 | the loop is the parser; what it accepts is non-empty and has separator-free codes |
| Segments.SegmentReads | backend/app/write/canonical.py:83-96 | what any text with two colons is read as, error by error |
| Segments.FirstBadDecides | backend/app/write/canonical.py:82-96 | a text fails with the error of its first bad segment |
| Segments.ParsePrint | backend/app/write/canonical.py:67-97 | parsing inverts printing on non-empty batches with good codes |
| Segments.RoundTripExactly | backend/app/write/canonical.py:76-80 | a batch comes back from its printed form if and only if it is non-empty with good codes |
| Segments.ParsedCodesAreGood | backend/app/write/canonical.py:82-97 | whatever parses has codes without separators and at least one op |
| Segments.KeyFaithful | backend/app/write/canonical.py:100-110 | two payload hashes are equal if and only if student and canonical batch are |
| Segments.TokenFaithful | backend/app/write/canonical.py:117-126 | under one secret two confirm tokens are equal if and only if student and batch are |
| Segments.SecretMatters | backend/app/write/canonical.py:117-126 | for one student and batch the token is the same under equal secrets only |
| Segments.ConfirmRecordRederives | backend/app/api/write_submit.py:120-124 | the stored segments give back the canonical batch and the very hash the preview showed |
| Ledger.JobLedger.CreateQueuedJob | backend/app/write/jobs.py:66-89 | inserts one queued row, refused exactly when an active job carries the hash |
| Ledger.JobLedger.FindActiveJobByHash | backend/app/write/jobs.py:53-63 | finds an active job of the hash if there is one |
| Ledger.JobLedger.ClaimJob | backend/app/write/jobs.py:92-108 | claims exactly a queued job not older than the cutoff and touches no other row |
| Ledger.JobLedger.FinishJob | backend/app/write/jobs.py:123-131 | ends the job only if it is active; a terminal row is left whole |
| Ledger.JobLedger.CancelStaleActiveJobs | backend/app/write/jobs.py:134-141 | no active job older than the cutoff remains; the count is the number ended |
| Ledger.JobLedger.RecordSuccessfulLogin | backend/app/auth/students.py:50-60 | all active jobs of the student, and only those, are superseded and counted |
| Ledger.JobLedger.InsertPendingAudits | backend/app/write/jobs.py:144-172 | one pending row per op in op order, ids in that order |
| Ledger.JobLedger.ApplyAuditOutcomes | backend/app/write/jobs.py:175-184 | the updates land one after another on the rows they name |
| Ledger.ApplyOutcomesRows | backend/app/write/jobs.py:175-184 | consecutive ids get exactly their update, every other row stays |
| Reconcile.ReconcileUpdates | backend/app/write/reconcile.py:35-68 | ids and order stay, only unknown rows change, each to what the last row with its long code says |
| Reconcile.StatesHeld | backend/app/write/reconcile.py:46-52 | the dictionary says selected exactly when the last row of the code does |
| Reconcile.ReconciledSettles | backend/app/write/reconcile.py:35-68 | after reconciling no unknown row is left |
| Reconcile.ReadsRightExactly | backend/app/write/reconcile.py:46-52 | whatever the states, the reading by long code is the one by number if and only if both name one last row |
| Reconcile.SettledAsListedExactly | backend/app/write/reconcile.py:49-67 | a settled row has the outcome listed under the op's number if and only if the two readings agree |
| Reconcile.LiveRowIsMisread | backend/app/selections/join.py:3-9 | on a row as the school lists it an effective add is settled as rejected and a failed drop as a success |
| ProtocolInvariant.ApplyKeepsInv | backend/app/write/engine.py:140-252 | every step of every actor keeps the protocol invariant |
| ProtocolInvariant.EveryRunOk | backend/app/write/queue_loop.py:38-66 | every run of all actors from an empty site satisfies it |
| ProtocolInvariant.AnswerKeepsInv | backend/app/write/engine.py:228-252 | a lost, bounced or classified answer leads to retry, expiry or weighed updates without breaking it |
| ProtocolInvariant.CloseKeepsInv | backend/app/write/engine.py:121-131 | outcomes and terminal status land together, on exactly this job's rows |
| ProtocolInvariant.TakeKeepsInv | backend/app/write/confirm.py:50-63 | taking a token moves its one use into one handler, or destroys it |
| ProtocolInvariant.InsertKeepsInv | backend/app/api/write_submit.py:129-142 | the guarded insert keeps active hashes unique and spends the handler's token |
| ProtocolTheorems.AtMostOnce | backend/app/write/engine.py:155-157 | at most one claim, one set of audit rows, three form requests, one form read, three posts, one slt_result query per job, ever |
| ProtocolTheorems.OverIsOver | backend/app/write/queue_loop.py:53-60 | after an execution closed or crashed nothing is ever added to the job's history |
| ProtocolTheorems.SchoolCallIsAudited | backend/app/write/engine.py:168-180 | when the school is called the job has exactly one pending row per op, in op order |
| ProtocolTheorems.PendingExactlyWhenUnfinished | backend/app/write/engine.py:121-131 | a row is pending if and only if its execution is in progress or crashed |
| ProtocolTheorems.ClosureIsComplete | backend/app/write/engine.py:241-252 | a close leaves exactly the batch's rows, with their action, code and hash, each with the outcome and the words the school's answer gives it |
| ProtocolTheorems.RecordedAsAnswered | backend/app/write/engine.py:241-252 | an accepted op is recorded as success, an unparsed or missing one as parse failed, a refused one as rejected unless posted again and duplicate-like, each with the school's words |
| JobRows.GivenUpAsHappened | backend/app/write/engine.py:182-239 | without an answer the row says how far the job came: expired stage, lost form reads or posts, a useless form, or a login |
| JobRows.NoSessionNoContact | backend/app/write/engine.py:182-226 | with the session dead or the job ended the school is not contacted for it again |
| JobRows.ChangesAreStamped | backend/app/write/jobs.py:92-141 | a job row changes only by a claim or by the end its writer gives it, stamped with that instant |
| JobRows.JobsAreBornQueued | backend/app/api/write_submit.py:120-136 | a row appears only by an insert, queued, with the batch parsed from the token's record and its hash |
| JobRows.ClaimIsFresh | backend/app/write/engine.py:153-166 | a popped job is claimed if and only if it is queued and was no older than the dwell when the worker read its clock |
| JobRows.UnclaimedIsSettled | backend/app/write/engine.py:158-166 | a job not claimed is cancelled if and only if it was still queued when read and is active when written, stamped then |
| JobRows.SinkDownFails | backend/app/write/engine.py:168-180 | with the audit sink down the job fails unless it ended meanwhile, no row is written and the school never called |
| JobRows.CrashAbandons | backend/app/write/queue_loop.py:53-60 | a crash ends a started execution and leaves every row, ticket and token as it was |
| JobRows.SweepCancelsExactly | backend/app/write/jobs.py:134-141 | a sweep cancels exactly the active jobs older than the dwell at the clock it read |
| JobRows.JobsNeedPasswords | backend/app/api/write_submit.py:91-106 | over any run there are never more jobs than passwords the school accepted |
| Confirmation.TokenLivesItsTime | backend/app/write/confirm.py:43-63 | whatever everybody else does, a take opens a submit if and only if it comes within the time given at the mint, for the record's student, and removes the token |
| Confirmation.TokenIsSingleUse | backend/app/write/confirm.py:50-63 | a taken token opens nothing until it is minted again |
| Confirmation.SubmitAlone | backend/app/api/write_submit.py:91-154 | a submit nobody gets between leaves exactly one queued job and its ticket, or, for a refused password, an unusable record, an unknown student or an active duplicate, nothing |
| ProtocolInvariant.PayloadForDraws | backend/app/write/engine.py:201-220 | the payload has the batch in its slots, `send` and `step` as the page wants them, every other field of the page verbatim, and nothing else |
| ProtocolInvariant.PayloadForPosts | backend/app/write/engine.py:201-220 | when there is a payload, and every field of it: the rows literally, `send`, `step`, and the page's own fields |
| ProtocolInvariant.ReadKeepsInv | backend/app/write/engine.py:192-222 | reading the form ends in an expired stage, an unparsable form, or a payload drawn from that page |
| ProtocolTheorems.PostsCarryTheBatch | backend/app/write/engine.py:201-231 | every posted form is drawn from the one page read for that job and reads back as its batch, after claim and audit insert |
| ProtocolTheorems.DuplicatesAreNotFailures | backend/app/write/engine.py:244-251 | after more than one post a duplicate-like refusal is a failure only when slt_result was read and its last row with that long code says so |
| Misreading.RecordedAsListedExactly | backend/app/write/reconcile.py:71-91 | its recorded outcome is the one listed under the op's number if and only if the two readings agree, for which one last row is enough |
| Misreading.RetriedRun | backend/app/write/engine.py:228-252 | every batch, fitting page, disputing answer and list is a run from the empty site to a close after that reading |
| Misreading.EveryMisreadingIsRecorded | backend/app/write/reconcile.py:46-67 | every op and every list it is misread from end as a reachable closed job with the wrong outcome in its row |
| Misreading.LiveRowIsMisrecorded | backend/app/selections/join.py:3-9 | a reachable closed job records a listed add as rejected, another a still listed drop as a success |
| ProtocolTheorems.ReconcileResolvesAllOrNone | backend/app/write/reconcile.py:71-91 | a reading resolves all unknown rows of the job; unknown rows exist only after a retried post |
| ProtocolTheorems.StepEvolves | backend/app/write/jobs.py:123-141 | no step of any actor revives a terminal row or changes a job's identity |
| ProtocolTheorems.TerminalIsAbsorbing | backend/app/write/jobs.py:123-131 | a terminal row never changes over any run, and terminal rows are exactly those with a finish time |
| ProtocolTheorems.SupersedeWins | backend/app/auth/students.py:50-57 | a login in the middle of a run ends the student's jobs for good, against every later write |
| ProtocolTheorems.SweepReapsOnlyAbandoned | backend/app/write/queue_loop.py:29-35 | a sweep leaves no stale active job, and what it ends was never claimed or had crashed |
| ProtocolTheorems.SubmissionIsConserved | backend/app/api/write_submit.py:87-154 | one active job per hash, every ticket names its job and re-derives it, jobs under a token never outnumber its mints |
| ProtocolTheorems.TicketsAlwaysParse | backend/app/write/engine.py:143-150 | a popped ticket never takes the corrupt-segments branch |
| PostWindow.EndedOutsideIsNeverPosted | backend/app/write/engine.py:188-226 | a job ended while no first or further post was due is never posted afterwards, whatever anybody does |
| PostWindow.EndedIsPostedExactlyInTheWindow | backend/app/write/engine.py:224-231 | some continuation posts an ended job if and only if its execution is about to send, or has a call out that is not the last |
| PostWindow.SupersededJobMayStillBePosted | backend/app/write/engine.py:224-231 | every batch that parses reaches the window with every page it fits on; a login there supersedes the job and its post goes out |
| PostWindow.SomeEndedJobIsPosted | backend/app/write/engine.py:224-231 | a concrete reachable site whose only job has ended and is posted afterwards |
| Superseding.SupersededRowsAreHonest | backend/app/write/engine.py:188-190 | a superseded audit row belongs to a job a login ended, and nothing was posted for it |
| Statuses.StatusTellsWhatHappened | backend/app/write/engine.py:232-252 | done means answered and closed, failed closed unanswered, cancelled never executed or crashed, and conversely |
| Engine.Site.Step | backend/app/write/engine.py:155-157 | a statement commits only what its protocol step says the tables hold |
| Engine.Site.ClaimJob | backend/app/write/engine.py:153-157 | the claim statement is the claim step, and tells which way it went |
| Engine.Site.CancelUnclaimed | backend/app/write/engine.py:158-166 | after a normal return the unclaimed job is not queued and its history is unchanged |
| Engine.Site.InsertPendingAudits | backend/app/write/engine.py:168-173 | every row and its id, or none and the sink is down |
| Engine.Site.FailUnaudited | backend/app/write/engine.py:174-180 | with the sink down the job is closed without school contact |
| Engine.Site.GetWriteForm | backend/app/write/engine.py:101-113 | at most three tries; the worker stands where the answer, or its absence, sends it |
| Engine.Site.PostWrite | backend/app/write/engine.py:228-234 | at most three tries; `retried` is true exactly from the second on, as the next step needs it |
| Engine.Site.Finalize | backend/app/write/engine.py:121-131 | outcomes and status in one transaction close the job |
| Engine.BuildUpdates | backend/app/write/engine.py:241-247 | the zip of ids and ops: success, parse failed or rejected with the school's words, a retried duplicate not believed, a code not shown parse failed |
| Engine.BuildPayload | backend/app/write/engine.py:201-220 | action, variant, send default, row count and injected step decide the payload or its absence |
| Engine.Site.MaybeReconcile | backend/app/write/reconcile.py:71-91 | asks once, only with something to settle and a live session, and never again |
| Engine.Site.SubmitForm | backend/app/write/engine.py:192-226 | each form outcome ends in the close the protocol expects |
| Engine.Site.SubmitPost | backend/app/write/engine.py:228-252 | each post outcome ends in the close the protocol expects |
| Engine.Site.ExecuteTicket | backend/app/write/engine.py:140-252 | one execution is a protocol run; a normal return leaves the job's history untouched or closed |
| Engine.Site.SweepOnce | backend/app/write/queue_loop.py:29-35 | one sweep is a protocol run; afterwards no active job is older than the cutoff |
| Engine.Site.WriteQueueLoop | backend/app/write/queue_loop.py:38-66 | any number of rounds of pop, execute and sweep is a protocol run, and the first round sweeps |
| Engine.Site.PopNewest | backend/app/worker.py:71-76 | takes exactly the ticket pushed last |
| Engine.Site.CheckSubmission | backend/app/api/write_submit.py:120-131 | refuses exactly for an unusable record, an unknown student or an active duplicate |
| Engine.Site.InsertAndPush | backend/app/api/write_submit.py:132-154 | an accepted submit has committed its row before its ticket is in the queue |
| Engine.Site.PostWriteSubmit | backend/app/api/write_submit.py:75-160 | accepted means this token's record of this student became one job whose ticket names it; every refusal states a fact about the token, the student or the job table |
| Engine.Site.RecordSuccessfulLogin | backend/app/auth/students.py:35-60 | a login is a protocol step after which the student has no active job |
| Engine.Site.StoreConfirm | backend/app/write/confirm.py:43-47 | the record is parked under its token until its own time from now, replacing what stood there |
| Engine.OthersRun | backend/app/api/write_submit.py:87-154 | whatever everybody else does, a handler keeps its place and jobs keep their identity and token |
| Timetable.ParseDayString | backend/app/write/timetable.py:49-56 | the code set of the string, or the first unknown character |
| Timetable.IsConflictDays | backend/app/write/timetable.py:63-74 | answers whether the two share a period on a weekday, and always answers on valid timetables |
| Timetable.ClashSymmetric | backend/app/write/timetable.py:63-74 | clashing is symmetric |
| Timetable.ClashExactly | backend/app/write/timetable.py:63-74 | two timetables clash if and only if on one of seven weekdays both hold a character of the same period, in either case |
| Timetable.DaysFromFused | backend/app/write/timetable.py:77-94 | a fused cell yields seven slots with exactly its run's periods on its weekday |
| Timetable.FusedExactly | backend/app/write/timetable.py:36-38 | a cell is read if and only if it is a weekday and then digits, A to E and commas |
| Timetable.FusedReads | backend/app/write/timetable.py:77-94 | a period stands in slot d if and only if d is the weekday's place and the cell names the period; slots ascend |
| Timetable.FusedCellsNeverReadF | backend/app/write/timetable.py:36-38 | F is a period, yet no fused cell that names it has a timetable |
| Preview.EvaluateOps | backend/app/write/preview.py:77-137 | every op gets the declaratively specified verdict, detail and warning |
| Preview.MixedCodes | backend/app/write/preview.py:84-89 | exactly the codes both added and dropped |
| Preview.ClashWithTargets | backend/app/write/preview.py:109-112 | the first selection in order that clashes, or none does |
| Preview.ClashWithStaged | backend/app/write/preview.py:113-117 | the earliest passed add that clashes, or none does |
| Preview.PassedAddsAreClashFree | backend/app/write/preview.py:106-120 | passed adds clash with no selection and with no other passed add |
| Preview.BlockedExactlyByClash | backend/app/write/preview.py:106-120 | an unmixed coded add is blocked if and only if it clashes with a selection or an earlier passed add, and names the first |
| Preview.JudgementIsUnique | backend/app/write/preview.py:90-137 | the specification leaves no choice of answer |
| Preview.ValidateOps | backend/app/api/write.py:85-100 | accepted if and only if priorities are present, in range and distinct on adds, absent on drops, within the limit |
| PreviewInputs.OneCodeIsOneCourse | backend/app/write/catalog.py:52-79 | two adds of one code, by row id or by code, are one catalog row |
| PreviewInputs.ResolvesToItsRow | backend/app/write/catalog.py:52-79 | the resolved course is the one catalog row named, column by column, or an empty one |
| PreviewInputs.SelectionTargets | backend/app/api/write.py:138-147 | one target per selection with a timetable, in order, or the first unknown period |
| PreviewInputs.TargetsAreTheTimed | backend/app/api/write.py:138-147 | the targets are exactly the selections with a timetable, under their names |
| PreviewInputs.UntimedIsInvisible | backend/app/api/write.py:145-147 | dropping a selection without a timetable leaves the targets as they are |
| PreviewInputs.PeriodFTakesNoPart | backend/app/write/timetable.py:77-94 | a selection known only by a period F cell changes no verdict |
| Payload.Build | backend/app/write/payload.py:158-174 | refused exactly when the page's rows are too few; otherwise row by row the sign, code and two-digit priority, rest rows cleared, `send` defaulted, all else verbatim |
| Payload.BuiltFormIsBuild | backend/app/write/payload.py:151-174 | the built form reads back as the batch and rest rows, and leaves every other field of the page as it was |
| Payload.BuiltFormPosts | backend/app/write/payload.py:151-174 | the posted fields by their literal names: `D1` holds the sign, `C1` the code, `T1` two digits or nothing |
| Payload.CarriesDeterminesBatch | backend/app/write/payload.py:164-172 | one form is the form of one batch only |
| Payload.StepKeepsRows | backend/app/write/engine.py:214-220 | injecting the step leaves every slot as built |
| PreviewToWire.CanonicalCodesDistinct | backend/app/api/write.py:251-276 | after an all-ok preview the canonical batch has each code once |
| PreviewToWire.CanonicalCoversRequest | backend/app/api/write.py:273-283 | the canonical batch asks for exactly the requested codes and actions |
| PreviewToWire.CanonicalKeepsPriorities | backend/app/api/write.py:273-283 | an add carries the priority its code was first asked for with |
| PreviewToWire.VerdictBelongsToOneOp | backend/app/write/engine.py:236-243 | a school verdict for a code belongs to one op of the batch |
| PreviewToWire.PreviewReachesTheWire | backend/app/api/write.py:273-294 | the worker re-derives the previewed batch, and a form filled in with it reads back as that batch and as nothing else |
| ShownPayload.AgreeOutsideAdded | backend/app/write/engine.py:201-220 | shown and posted form carry the batch in the same rows and differ at most in an added parameter and the step |
| ShownPayload.ShownIsPostedExactly | backend/app/write/payload.py:34-38 | they are equal if and only if every parameter is a hidden input already and no other step is pinned |
| ShownPayload.LiveFormIsNotAsShown | backend/app/write/engine.py:214-220 | with a blank hidden step and pin 2 the shown step is blank, the posted one is 2 |
| PreviewToWire.RepeatedAddsHaveNoHours | backend/app/write/preview.py:106-120 | with adds resolved against a catalog with unique ids and codes, a course with hours cannot pass twice, so no priority is lost in the canonical form |
| Breaker.SchoolBreaker.Admit | backend/app/auth/breaker.py:53-67 | admits when closed, or after the recovery when no probe is pending, and then sets the probe gate |
| Breaker.SchoolBreaker.RecordClassified | backend/app/auth/breaker.py:69-71 | a coherent answer closes the breaker |
| Breaker.SchoolBreaker.RecordUnknown | backend/app/auth/breaker.py:73-82 | counts, refreshes the decay and stamps at the threshold |
| Breaker.StreakCountsChain | backend/app/auth/breaker.py:75-76 | the streak key is the length of the unbroken run of unknowns and lives twice the recovery past its last |
| Breaker.StampedExactlyOnChain | backend/app/auth/breaker.py:75-81 | an unknown stamps if and only if it completes threshold unknowns, gaps under twice the recovery, no answer between |
| Breaker.StampIsLatest | backend/app/auth/breaker.py:77-81 | the stamp is the instant of the last such unknown, with no answer since |
| Breaker.GrantsAreSpaced | backend/app/auth/breaker.py:59-67 | while the stamp stays, grants are at least the smaller of a minute and the recovery apart |
| Breaker.GrantWaitsForRecovery | backend/app/auth/breaker.py:59-63 | no grant falls within the recovery of the latest stamp |
| Breaker.RefusedOnlyForAProbe | backend/app/auth/breaker.py:63-67 | past the recovery a refusal means a probe less than a minute old |
| Breaker.FailedProbeRestamps | backend/app/auth/breaker.py:75-81 | a failed probe re-stamps if and only if the streak is alive or the threshold is at most one |
| Breaker.LateFailedProbeDoesNotRestartTheWait | backend/app/auth/breaker.py:11-16 | a history in which the promised restart of the wait does not happen |
| Lockout.FailureLog.IsLocked | backend/app/auth/lockout.py:75-77 | true while the lock key is visible |
| Lockout.FailureLog.UnexpiredFailures | backend/app/auth/lockout.py:79-83 | prunes and counts |
| Lockout.FailureLog.RecordCredentialFail | backend/app/auth/lockout.py:85-110 | appends, counts, locks without extending, and counts new locks only |
| Lockout.CountIsExact | backend/app/auth/lockout.py:96-101 | however attempts overlap the count is the number of unexpired recorded failures; key expiry never drops one |
| Lockout.LockIsTheLastSpent | backend/app/auth/lockout.py:101-104 | the lock key is written by every budget-spending failure that finds none standing, and by nothing else |
| Lockout.LapseLeavesFew | backend/app/auth/lockout.py:12-17 | with at most c attempts out, fewer than c failures are unexpired when a lock lapses |
| Lockout.WindowBound | backend/app/api/auth.py:172-199 | with at most c attempts out, every half-open window of one lock length holds at most max(limit, c) + c - 1 recorded failures |
| Lockout.FailuresAreSpread | backend/app/api/auth.py:172-199 | the failure that many places later comes at least a window later |
| Lockout.BoundIsReached | backend/app/api/auth.py:172-199 | for every limit and every c some history puts exactly that many failures into one window |
| Lockout.BudgetHoldsExactlySerialized | backend/app/auth/lockout.py:12-17 | no window ever holds more than the budget if and only if attempts never overlap |
| JarStore.Sessions.StoreJarPair | backend/app/auth/sessions.py:154-165 | the jar gets a fresh sliding window, the cap is set only when absent |
| JarStore.Sessions.LoadJarPair | backend/app/auth/sessions.py:168-180 | returns the jar only under both windows, refreshes the sliding one, drops the jar with the cap |
| JarStore.Sessions.DeleteSiteSession | backend/app/auth/sessions.py:100-118 | logout drops all three families of this session and nothing of another |
| JarStore.AnchorKeyIsAnchor | backend/app/auth/sessions.py:129-132 | loads and re-stores never move the hard cap |
| JarStore.LoadsExactly | backend/app/auth/sessions.py:135-151 | a load returns a payload if and only if its store was kept warm up to now under a standing cap |
| JarStore.NeverPastTheHardCap | backend/app/auth/sessions.py:121-151 | what is loaded is the latest stored payload, never at or after its own hard time |
| Throttle.RequestWithBackoff | backend/app/selcrs/http.py:142-168 | one to five attempts, the first answer wins, waits are the prefix of 1, 2, 4, 8, 16 |
| Throttle.InvAlways | backend/app/selcrs/http.py:131-139 | over all interleavings permits and holders always add up |
| Throttle.InFlightBounded | backend/app/selcrs/http.py:57-64 | at most two school calls and one captcha call in flight, backoff waits included |
| Throttle.NeverDeadlocked | backend/app/selcrs/http.py:131-139 | while a call is pending some call can move |
| Throttle.RunsEnd | backend/app/selcrs/http.py:151-168 | without arrivals only boundedly many steps are left |
| Snapshot.Catalog.BuildIndex | backend/app/catalog/persist.py:93-98 | the dictionary of existing rows, last listed wins |
| Snapshot.Catalog.UpsertRows | backend/app/catalog/persist.py:99-124 | existing rows renewed, new ones added, every changed row a copy of a scraped one, every scraped row counted once |
| Snapshot.Catalog.DeleteVanished | backend/app/catalog/persist.py:128-138 | deletes and counts exactly the rows whose identity was not seen |
| Snapshot.Catalog.ReplaceYearSemSnapshot | backend/app/catalog/persist.py:83-146 | the table row by row after the replacement, every changed row a column by column copy of a scraped one, and the tally |
| Snapshot.SnapshotIsTheScrape | backend/app/catalog/persist.py:83-146 | from unique identities: exactly the scraped identities, every column of the first scraped row each, ids survive, other semesters untouched |
| Snapshot.EveryChangeIsScraped | backend/app/catalog/persist.py:54-58 | from any table: a new or changed row holds every column of the first scraped row of its identity |
| Snapshot.NamesExactlyTheScrape | backend/app/catalog/persist.py:126-138 | afterwards an identity is in the semester if and only if it was scraped |
| Snapshot.DistinctAfterExactly | backend/app/catalog/persist.py:93-98 | identities are unique afterwards if and only if no scraped identity was shared before |
| Snapshot.TwinsAreKept | backend/app/catalog/persist.py:93-98 | for every row without a code some table and scrape keep two rows of its identity |
| Snapshot.DistinctForGood | backend/app/catalog/persist.py:83-146 | unique identities stay unique over any sequence of replacements of any semesters |
| Snapshot.UpdatedPlusDeleted | backend/app/catalog/persist.py:140-146 | from unique identities updated plus deleted is the number of existing rows |
| Snapshot.ReplacingAgainChangesNothing | backend/app/catalog/persist.py:83-146 | replacing by the same scrape again leaves the table as it is |
| GridPlan.RawGrid | frontend/src/components/ScheduleTable.tsx:93-113 | each cell lists the courses meeting there, in selection order |
| GridPlan.PlanMatrix | frontend/src/components/ScheduleTable.tsx:115-180 | each cell is a skip exactly under the run of one course, else a render cell with the run's span |
| GridPlan.RunLength | frontend/src/components/ScheduleTable.tsx:133-141 | the inner loop finds the length of the run |
| GridPlan.PlanTilesFrom | frontend/src/components/ScheduleTable.tsx:120-180 | render cells with their spans tile every column |
| GridPlan.PlanIsLossless | frontend/src/components/ScheduleTable.tsx:88-183 | the plan tiles the column and expands to the ids it was built from |
| GridPlan.SkipsLieUnderTheirCourse | frontend/src/components/ScheduleTable.tsx:159-164 | each skip lies under exactly one render cell, of its own course |
| GridPlan.SpansAreMaximal | frontend/src/components/ScheduleTable.tsx:133-141 | a span covers only its course and can be lengthened in neither direction |
| GridPlan.RangeIsOfItsRows | frontend/src/components/ScheduleTable.tsx:133-157 | the hours shown run from the start of the cell's first row to the end of its last |
| Timeslots.ParseDayTimeString | frontend/src/config/timeslots.ts:100-109 | distinct codes in order of appearance, or the first unknown code |
| Timeslots.CodesKeepOrder | frontend/src/config/timeslots.ts:104-108 | the codes stand in the order in which they first appeared |
| Timeslots.ServerReadsTheSame | frontend/src/config/timeslots.ts:86-109 | on known codes the server's parser reads the same set |
| Conflicts.OverlapTags | frontend/src/lib/conflicts.ts:60-75 | one tag per weekday with shared codes, in order |
| Conflicts.TagsExactlyWhenClashing | frontend/src/lib/conflicts.ts:60-75 | there is a tag if and only if the two share a cell; the relation is symmetric |
| Conflicts.TagMembers | frontend/src/lib/conflicts.ts:60-75 | each tag is a weekday label and the codes shared on it |
| Conflicts.IsConflictDays | frontend/src/lib/conflicts.ts:31-46 | answers whether the two share a cell |
| Conflicts.ServerAgrees | frontend/src/lib/conflicts.ts:31-46 | on valid timetables browser and server decide clashes alike |
| Conflicts.FindClashes | frontend/src/lib/conflicts.ts:81-96 | the clashes in selection order, the candidate itself left out |
| Conflicts.ClashesExactly | frontend/src/lib/conflicts.ts:81-96 | a course is listed if and only if it is another selected one sharing a cell |
| Conflicts.ConflictPairs | frontend/src/lib/conflicts.ts:104-121 | the loops compute the pairs row by row |
| Conflicts.PairsExactly | frontend/src/lib/conflicts.ts:104-121 | a pair is reported if and only if it clashes, with its tags |
| Totals.TotalCreditsAndHours | frontend/src/lib/totals.ts:24-37 | sums credits and hours, and fails exactly on an unknown code |
| Totals.HoursAreCells | frontend/src/lib/totals.ts:31-34 | one course counts each of its cells once |
| Totals.HoursCountCells | frontend/src/lib/totals.ts:24-37 | hours are at least the distinct cells, and equal if and only if no clashing pair is reported |
| SelectionGrid.ParseSchoolTimes | frontend/src/lib/selectionGrid.ts:23-39 | accepts exactly a weekday and single period codes, and gives that day's chronological slot |
| SelectionGrid.PeriodsNamed | frontend/src/lib/selectionGrid.ts:24-38 | a token names on its weekday exactly the period codes after it, and nothing on another day |
| SelectionGrid.PiecesAreBetweenCommas | frontend/src/lib/selectionGrid.ts:26-28 | the pieces hold no comma and with commas of either width between them are the text |
| SelectionGrid.TrimIs | frontend/src/lib/selectionGrid.ts:29-29 | trimming removes spaces only, and leaves none at either end |
| SelectionGrid.OrderedIsChronological | frontend/src/lib/selectionGrid.ts:41-44 | every built slot is strictly chronological |
| SelectionGrid.UnionOfOrdered | frontend/src/lib/selectionGrid.ts:41-44 | merging slots is the union of their code sets |
| SelectionGrid.BuildSelectionGridCourses | frontend/src/lib/selectionGrid.ts:92-121 | one block per key in order of first row, slots the union of its rows, the rest unplaced |
| SelectionGrid.EveryRowIsShown | frontend/src/lib/selectionGrid.ts:97-116 | each chosen row is unplaced when its times cannot be read, else has all its periods in the one block of its course id, code, number, or name and teacher |
| SelectionGrid.BlockPeriods | frontend/src/lib/selectionGrid.ts:110-115 | a block shows exactly the periods its rows name, chronologically |
| SelectionGrid.MergeIgnoresOrder | frontend/src/lib/selectionGrid.ts:97-116 | the slots of a block do not depend on the order of the rows |
| SelectionGrid.FirstRowIsFirst | frontend/src/lib/selectionGrid.ts:105-109 | the row a block copies its fields from is the first of its key |
| Priority.AssignSequentialPriority | frontend/src/lib/priority.ts:44-50 | places become priorities, none past the twentieth |
| Priority.DragSurvivesExactly | frontend/src/lib/priority.ts:23-50 | the dragged order is shown again if and only if its tail past twenty kept the incoming order |
| Priority.AssignThenOrderIsIdentity | frontend/src/lib/priority.ts:23-50 | ordering by freshly assigned priorities is the identity on distinct ids |
| Priority.ApplyPriorityEdit | frontend/src/lib/priority.ts:68-106 | accepted if and only if it clears or names a free number in range; otherwise nothing changes and the first holder is named |
| Composer.Reduce | frontend/src/lib/writeOps.ts:129-183 | each action does exactly its own change; all but a re-init keep courses unique and priorities distinct and in range |
| Composer.PriorityReachesItsCourse | frontend/src/lib/writeOps.ts:151-160 | an accepted priority is set on the rows of its course and on no other |
| Composer.TypedReachesItsKey | frontend/src/lib/writeOps.ts:164-170 | what is typed is set on the drafts of its key and on no other |
| Composer.PlanIsDrafted | frontend/src/lib/writeOps.ts:87-93 | a re-init drafts every planned course in order, with its code and priority |
| Composer.RestOfAdds | frontend/src/lib/writeOps.ts:171-175 | a removal leaves exactly the drafts of the other courses, in their order |
| Composer.RestOfDrops | frontend/src/lib/writeOps.ts:176-180 | and exactly the drops of the other keys |
| Composer.KeptExactly | frontend/src/lib/writeOps.ts:129-183 | over any sequence of actions that is kept throughout if and only if it holds at first and of every plan a re-init brings |
| Composer.DropsExactly | frontend/src/lib/writeOps.ts:94-110 | drop drafts are exactly the held, nameable selections with what was typed for them |
| Composer.TypedIsKept | frontend/src/lib/writeOps.ts:77-114 | after a re-init every held, nameable selection has its draft, holding the text typed last under its key, or none |
| Composer.BuildPreviewOps | frontend/src/lib/writeOps.ts:199-214 | prioritized adds, then drops whose typed code matches |
| Composer.AddOpsExactly | frontend/src/lib/writeOps.ts:201-204 | the adds are the drafts with a priority, in order, with their course and priority |
| Composer.DropOpsExactly | frontend/src/lib/writeOps.ts:205-212 | the drops are the drafts whose code was typed in full, in order, named by course or by that code |
| Composer.BatchIsWellShaped | frontend/src/lib/writeOps.ts:199-214 | such a batch always passes the server's shape checks |
| AuditLifecycle.Lifecycle.WriteArchive | backend/app/write/audit_lifecycle.py:68-75 | a complete file with every row's columns and message excerpt, or after a crash a partial one, and no row lost either way |
| AuditLifecycle.Lifecycle.CommitArchive | backend/app/write/audit_lifecycle.py:131-138 | ledger row and deletion together move the rows into the archive |
| AuditLifecycle.Lifecycle.ReapExpired | backend/app/write/audit_lifecycle.py:140-151 | only files past their retention go; unless it dies none of them is left and all are marked |
| AuditLifecycle.Lifecycle.RunLifecycle | backend/app/write/audit_lifecycle.py:108-152 | however a run ends, every row is in the table, or in an archive line with its student hash, instant, copied columns and the first eighty characters of its message until its retention is over; only hot rows move, and the counts are right |
| AuditLifecycle.CommittedIsArchived | backend/app/write/audit_lifecycle.py:131-138 | after the commit a moved row is in the new archive and every earlier one where it was |
| IngestLock.Lock.Acquire | backend/app/catalog/schedule.py:102-114 | takes the lock exactly when no visible key stands |
| IngestLock.Lock.Release | backend/app/catalog/schedule.py:116-121 | deletes the key only while it holds this token |
| IngestLock.HeldUntilExpiry | backend/app/catalog/schedule.py:102-121 | the key stays with its round until release or expiry, whatever other rounds do |
| IngestLock.RoundsExclude | backend/app/catalog/schedule.py:10-14 | a second round starts only after release, or after the first overran |
| IngestLock.LateReleaseFreesNobody | backend/app/catalog/schedule.py:12-14 | an overran round never frees a later round's lock |
| IngestLock.CrashSkipsTicks | backend/app/catalog/schedule.py:14-16 | whenever ticks come, the next one after a crash is lost if and only if it comes before the lock lapses |
| IngestLock.LostExactly | backend/app/catalog/schedule.py:149-168 | the first n ticks are all lost if and only if the last of them comes before the lapse |
| IngestLock.OneTickLostExactly | backend/app/catalog/schedule.py:14-16 | at most one is lost if and only if the second comes no earlier than the lapse |
| IngestLock.SteadyTicksLoseOne | backend/app/catalog/schedule.py:14-16 | ticks at least the asked interval apart lose at most one |
| IngestLock.EveOfPeakLosesSeven | backend/app/catalog/schedule.py:150-159 | the shipped expressions lose seven ticks after a crash on the eve of a peak day |
| Handoff.WalkChain | backend/app/stuenroll/handoff.py:85-147 | ends within both bounds at a page it may not or need not leave, the jar threaded through every call |
| Handoff.CallsMean | backend/app/stuenroll/handoff.py:85-147 | each call is a followed redirect of status 301, 302 or 303, or the posted form of a page under 2048 where no redirect may be followed, sent with the jar of the page before |

## Left out

- HTTP, TLS, cookies, HTML scraping, charset handling and OCR: pages and school answers enter as arbitrary values, and classification as any function from codes to verdicts.
- sha256 and base64: taken as injective; the mint of a token by a preview is any mint.
- Database and Redis internals: a guarded UPDATE, an INSERT, a transaction and a Redis command are each one atomic step.
- Protocol.Apply: the jar store answers arbitrarily there, the breaker and the CSRF check only decide whether a password is accepted, and audit archival does not run beside it.
- Payload.Build: the row count accepts ASCII digits only, whereas `str.isdigit` accepts other digit characters too.
- Protocol.Take: a stored record that does not decode, answered like a missing one, is left out.
- Protocol.Mint: who may mint is not modelled; a preview is any record under any token.
- Ledger.JobLedger.CreateQueuedJob: row ids are positions, students are identified by their number.
- Segments.ParseCanonicalSegments: digits are ASCII, whereas `str.isdigit` also accepts other digit characters; priorities are natural numbers.
- Engine.Site.WriteQueueLoop: a bounded number of rounds instead of an endless loop; corrupt queue entries, which are discarded, and log lines are left out.
- Engine.Site.PostWriteSubmit: the three lookups before the insert are one step, as nothing is written between them; the id in a duplicate's error body is left out.
- Engine.Site.Await: an exception may be raised at every await of an execution; exceptions in purely local code are not distinguished.
- Preview.EvaluateOps: the fallback by which a drop resolves through the selections, the typed drop confirmation and the quota date are left out; an unknown period code ends the evaluation with an error.
- Lockout.FailureLog.RecordCredentialFail: the per-day counter is left out, and the commands of one call are one step; the address limiter beside it is a counter per clock hour.
- PreviewInputs.SelectionTargets: the membership set beside the targets, and the `strip` of idents and codes, are left out; the catalog stores codes stripped (`backend/app/catalog/parse.py:155`).
- JarStore.Sessions.DeleteSiteSession: the other session-scoped keys are plain deletes and left out.
- Snapshot.Catalog.ReplaceYearSemSnapshot: the two dictionaries, for coded and uncoded rows, are one map over tagged identities; `ingested_at` is left out.
- GridPlan.PlanMatrix: `spanCount` always equals the row span and is left out; rendering is left out.
- SelectionGrid.BuildSelectionGridCourses: the fields copied into a block are the block's first row; blocks are values, not objects updated in place.
- Priority.ApplyPriorityEdit: a digit string too large for a double is called out of range here, invalid in the browser; rejected either way.
- AuditLifecycle.Lifecycle.RunLifecycle: the copied columns of a row are one opaque field; files change only through the lifecycle.
- IngestLock: the cron parser and the peak-day table; the tick instants and the time asked for are given.
- Handoff.WalkChain: decoding and recognising a handoff page are a given function.
- Catalog query filters, calendar export, health reporting, text tables and rendering: thin layers over libraries.
