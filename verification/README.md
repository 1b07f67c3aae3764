# A verified model of PolyPent's control plane

PolyPent plans a run as jobs on a Postgres queue, leases the jobs to workers, clamps every target to
a project's scope rules, folds what collectors report into findings and chains everything it did into
an HMAC audit log. This project models those mechanisms in Dafny 4.11 and proves what they promise.
`dafny verify dfyconfig.toml` checks all of it.

## The files

| file | what it models |
|---|---|
| `Rows.dfy` | the `jobs` and `runs` rows, the row images the SQL statements write, `COUNT(*)` over a table |
| `Protocol.dfy` | queue, workers, planners, cancellers and the sweep as one labelled transition system |
| `Invariants.dfy` | what every step keeps: locks, row shapes, lease histories, what a worker knows of its job |
| `LeaseSafety.dfy`, `CapSafety.dfy`, `Progress.dfy`, `RunFinish.dfy`, `LostRuns.dfy` | the theorems about all executions |
| `Database.dfy` | the same code as methods over mutable tables; each statement is a step of the protocol |
| `Audit.dfy`, `AuditLog.dfy` | the hash chain, tampering, `Append` and `Verify`, concurrent appends |
| `Scope.dfy`, `ScopeStore.dfy` | first-match evaluation, DNS matching, the ordered rule table |
| `Planner.dfy` | `Plan` over the scope store, the queue's tables and the audit log |
| `Findings.dfy` | `Upsert` as a fold and as two statements, ingestion |
| `ScopeSafety.dfy` | from the stored scope rules to the finding table, over all executions |
| `Ports.dfy` | the port-list parser, in Go and in Rust |
| `Scan.dfy` | the launcher and dial goroutines of the TCP connect scan |
| `Ndjson.dfy` | line framing over a buffered reader, whatever pieces the stream arrives in |
| `Strings.dfy`, `Sequences.dfy`, `Wrappers.dfy` | library functions on strings; rising lists; options, results, bytes |

## How the queue protocol is modelled

A state holds the job and run tables, the row locks, the advisory locks, the caps, one clock, and the
place of every worker, canceller and planner. Each SQL statement, and each COMMIT, is one atomic step
under READ COMMITTED; all processes interleave freely, and there are any number of them. `Lease` is a
transaction of up to five steps: its row lock makes other leases skip the row and cancellations of
that row wait, its UPDATE is private until the commit, a rollback or crash drops the locks. The
advisory lock's key is an arbitrary function of the project, so two projects may share a key.
`MaybeFinishRun` is a count and a later write. A worker that lost its lease is not told: it goes on
executing and completing. Any statement may fail: a Lease is then rolled back, a Plan gives up, a
CancelRun returns without its second update, a worker passes from a failed completion on to the run's
count, and otherwise leaves its job as if it had died; a failure that is reported although the statement
took effect is the statement followed by one of these. A ledger that no step reads records each
committed lease with its interval, and how often the sweep took a job back.

The methods of `Database` run one caller's statements with nothing in between, beside whatever
transactions are open, as long as none makes them wait; each names the exact protocol steps it ran as,
and so does `Planner.Plan`, so the theorems about executions hold of these runs too
(`Protocol.ExecutionProlonged`).

## Where the code and its documentation part

- The documentation says scope is checked again at dispatch (docs/architecture.md:136-138,
  docs/collector-protocol.md:55). `execute` has no such check (internal/worker/worker.go:171-215), so
  `ScopeSafety.FindingsInScope` speaks of the scope at planning time.
- The audit package comment says a removed row breaks the chain (internal/audit/audit.go:3-6). That holds
  of every row but the last ones: `Audit.DeletionLocated` and `Audit.TruncationUnseen`.
- `audit_events.project_id` is set to NULL when a project is deleted
  (internal/store/postgres/migrations/0001_init.up.sql:39), and `actor_token_id` with its tokens (lines 25
  and 40). Both are hashed, so deleting a project breaks the chain at the first event of the project or by
  one of its tokens: `Audit.DeletingProjectBreaksChain`. (The Go code itself deletes no project.)
- The comment in `chainHash` says the length prefix tells a nil previous hash from an empty one
  (internal/audit/audit.go:175). Both have length 0: `Audit.MessageInjective`. No harm follows, as `Verify`
  counts the two as equal.
- `Plan` marks a run with nothing kept as succeeded without looking at its status
  (internal/run/run.go:183-186), so it overwrites a cancellation: `RunFinish.TerminalRunChangesExactlyWhen`
  and `RunFinish.CancelledPlanSucceeds`.
- A run can stay running for ever. `LostRuns.LostExactlyWhen` names the steps after which nobody will
  finish a run: a CancelRun that fails between its updates, as it does when its client goes away, the
  context being the request's (internal/api/handlers_runs.go:194); cancelling the last job by id, which no
  code in the repository calls; a plan that ends or fails over jobs that are all done; and the last worker
  leaving a job that was cancelled under it, by failing to mark it running, on shutdown or by dying. Only
  cancelling the run as a whole mends it. `LostRuns.CancelRunStrandsRun` and
  `LostRuns.CancelJobStrandsRun` show two.
- `Upsert` documents evidence as replaced by the latest values; the statement unites it
  (internal/finding/finding.go:136 and 168-172). Its `Inserted` flag is read off two timestamps in a second
  statement, and is wrong in two ways: a row refreshed in the instant it was first seen is reported as
  inserted, and an inserted row that another worker refreshes before the second statement is not:
  `Findings.FlagExactlyRight`, `Findings.RefreshPassesForInsert`, `Findings.RefreshHidesInsert`.
- An event whose metadata does not come back from its JSON column with the same canonical bytes makes
  Verify report its row from the start: `AuditLog.ConcurrentAppendsVerify`.
- A last line without a newline is lost when it fills whole read buffers and the end of the stream comes in a
  read of its own: `Ndjson.UnterminatedTail`, `Ndjson.LostTails`.
- A target that is not allowed and has no kind makes `Plan` fail midway, because the audit log refuses the
  event; the run stays running: `Planner.Planner.Plan`.

## Model

| member | source | states |
|---|---|---|
| Invariants.RowStep | internal/queue/queue.go:107-321 | whatever process takes a step, a job row stays as it is or changes in one of five ways: the lease committed on a queued row, the start or the completion by its holder, a cancellation of a row that is neither terminal nor locked, the requeue of an expired lease; and what the job is for never changes |
| Invariants.LocksKept | internal/queue/queue.go:137-230 | row locks and advisory locks are at all times those of live Lease transactions, on exactly the row and key each has locked, and a locked row is still queued and unchanged |
| Invariants.InvKept | internal/queue/queue.go:137-321 | every step of every process keeps locks, row shapes, lease histories and what workers know of their jobs |
| Invariants.Reachable | internal/queue/queue.go:137-321 | that invariant holds at every moment of every execution |
| LeaseSafety.StepExtends | internal/queue/queue.go:47-54 | one step of any process keeps every terminal row whole, every first start and every job's identity, the unguarded UPDATE in Lease included |
| LeaseSafety.JobHistory | internal/queue/queue.go:232-321 | over any stretch of any execution: terminal is absorbing, started_at survives reclaims, jobs never disappear |
| LeaseSafety.LeasesExclude | internal/queue/queue.go:200-321 | leases of a job last exactly the lease duration and never overlap; attempts is the number of leases, which is the reclaims plus one exactly when the row has a holder; queued rows have no holder or expiry, running rows a start, and finished_at is set exactly on terminal rows |
| LeaseSafety.NoStaleCompletion | internal/queue/queue.go:232-273 | a MarkRunning or Complete that changes anything changes its worker's own job, in flight, under that job's latest lease, which was granted to this worker for this attempt |
| LeaseSafety.LeaseOrder | internal/queue/queue.go:149-164 | in every execution, what a Lease selects is a queued job that nobody has locked, and of all such jobs of existing projects none has a higher priority, and none of the same priority is older |
| LeaseSafety.SweepIsExact | internal/queue/queue.go:306-321 | in every execution each job in flight has an expiry, and a sweep requeues it, its holder and expiry cleared and nothing else, exactly if that is past; no other row changes |
| LeaseSafety.StuckJobReturns | internal/queue/queue.go:306-321 | after any execution, whatever its worker does or does not do, a job in flight is queued and unlocked again, attempts and first start kept, after one sweep at any time past its expiry |
| LeaseSafety.LeaseNeverDeadlocks | internal/queue/queue.go:137-230 | while any Lease transaction is open, one of them can take its next statement, also when two projects' keys collide |
| CapSafety.CapKept | internal/queue/queue.go:166-215 | every step keeps: in-flight jobs of a project are at most m, strictly fewer while a transaction has counted and not committed, m bounding the caps in force |
| CapSafety.CapNeverExceeded | internal/queue/queue.go:137-230 | under every interleaving, and however the cap is moved while positive, a project never has more jobs leased or running than the largest cap that was in force |
| CapSafety.CountIsCardinality | internal/queue/queue.go:177-182 | the count the cap check reads is the number of such rows |
| Progress.StepPotential | internal/queue/queue.go:107-321 | with queued 3, leased 2, running 1, terminal 0, each changed row costs a point, a sweep pays back at most two a row, an enqueue adds three |
| Progress.TransitionsBounded | internal/queue/queue.go:107-321 | in any execution with E enqueues and R reclaimed rows, leases, starts, completions and cancellations together change rows at most 3E + 2R times |
| RunFinish.CountsSay | internal/run/run.go:269-281 | the three counts say whether the run has a job, an unfinished one, a failed or timed-out one |
| RunFinish.FullCountStays | internal/run/run.go:269-290 | a full count keeps describing the rows it counted whatever happens to the tables afterwards |
| RunFinish.FinishInvKept | internal/run/run.go:267-292 | every step keeps that a worker about to count has a job of the run, that a held count is full and its verdict right, and that planners own their runs and know whether they have a job |
| RunFinish.FinishIsSound | internal/run/run.go:264-292 | at MaybeFinishRun's write every job it had counted is still terminal, the run becomes failed exactly when one of those failed or timed out and succeeded otherwise, with the counts in the summary, and a terminal run is left alone |
| RunFinish.RunRowStep | internal/queue/queue.go:298-303 | no step but the end of a plan that kept nothing changes a terminal run |
| RunFinish.TerminalRunChangesExactlyWhen | internal/run/run.go:181-189 | a terminal run changes exactly when its plan ends with nothing kept, and then from cancelled to succeeded |
| RunFinish.CancelledPlanSucceeds | internal/run/run.go:181-189 | an execution of four steps in which a cancelled run ends as succeeded |
| RunFinish.InHandKept | internal/worker/worker.go:214-235 | a step that does not take a run out of hand leaves it terminal, being planned without jobs, unfinished, about to be closed by a worker, or between the updates of a cancellation; failing statements are steps too |
| RunFinish.OnlyHopeDrops | internal/queue/queue.go:275-286 | a step that takes a run out of hand leaves it in none of those situations; a planner with more to enqueue, or a worker still on one of its cancelled jobs, may yet bring it back |
| RunFinish.OutOfHandExactlyWhen | internal/worker/worker.go:214-235 | in every execution a run in hand ceases to be by exactly four steps: the cancellation by id of its last unfinished job, the failure of its plan before the first job, the death of the one worker that was to close it, the failure of its one cancellation between its updates, nothing else keeping it in hand |
| RunFinish.NoLostFinish | internal/worker/worker.go:214-235 | at every moment of every execution without such a step, each run is in hand: terminal, being planned without jobs, unfinished, about to be counted or closed by a worker, or between the updates of a cancellation |
| RunFinish.FaultlessRunsFinish | internal/run/run.go:264-292 | once planners, workers and cancellers are idle and no job is pending, every run is terminal, when no job was cancelled by id, no plan failed, no cancellation failed between its updates and no worker died while closing a run |
| LostRuns.LostStays | internal/worker/worker.go:171-235 | a run that is open with no planner, no unfinished job, no cancellation under way and no worker on a job of it or closing it is lost, and every step of every process but the cancellation of the run as a whole keeps it so |
| LostRuns.LostExactlyWhen | internal/worker/worker.go:171-235 | in every execution a run becomes lost by exactly these steps, nothing else being left to finish it: the failure of its cancellation between its updates, the cancellation by id of its last unfinished job, its planner ending or failing over jobs that are all done, its last worker failing to mark a finished job running, being shut down or dying; and a lost run ceases to be by exactly the cancellation of the run |
| LostRuns.LostForGood | internal/queue/queue.go:288-304 | a run lost by some step is open at every later moment until somebody cancels it |
| LostRuns.QuietMeansFinished | internal/run/run.go:264-292 | once planners, workers and cancellers are idle and no job is pending, a run is still open if and only if some step of the execution lost it and nobody has cancelled the run since |
| LostRuns.CancelJobStrandsRun | internal/queue/queue.go:275-286 | an execution of four steps, the last of them such a step, after which everything is quiet and the run is still running |
| LostRuns.CancelRunStrandsRun | internal/queue/queue.go:288-304 | an execution of five steps, the last of them a CancelRun that fails between its updates, after which everything is quiet, the job cancelled and the run still running |
| Database.Database.Enqueue | internal/queue/queue.go:107-135 | one row more, queued, with the planner's run and project, the given collector, target and priority, and no attempt, holder or times; earlier rows stay; its id is answered; the insert is the protocol's step |
| Database.Database.CreateRun | internal/run/run.go:126-138 | one run more, running, of the given project; earlier runs stay |
| Database.Database.EndPlan | internal/run/run.go:181-189 | with nothing kept the planner's run is succeeded, whatever it was, with the number of drops; otherwise no run changes |
| Database.Database.Cancel | internal/queue/queue.go:275-286 | a job that is not terminal becomes cancelled and finished now, any other stays, and the answer says which; the update is the protocol's step |
| Database.Database.CancelJobs | internal/queue/queue.go:288-297 | row by row, exactly the unfinished jobs of the run become cancelled and finished now, and their number is answered; it needs only those rows to be free of Lease transactions |
| Database.Database.CancelStatus | internal/queue/queue.go:298-303 | the run is cancelled with both times set unless it was terminal, and then nothing changes |
| Database.Database.CancelRun | internal/queue/queue.go:288-304 | the run's jobs are terminal afterwards, and the run too, the answer being the number of jobs that were not; or, when the second update fails, the run is as it was and an error is answered; it needs only the rows it changes to be free, and the exact steps are named |
| Database.Database.UpdateProject | internal/project/store.go:99-129 | a given cap becomes the project's, none leaves it, other projects' stay; not found exactly without the project |
| Database.Database.ReclaimExpired | internal/queue/queue.go:306-321 | row by row, exactly the rows that are leased or running with an expiry before now go back to the queue, losing holder and expiry and nothing else, and the number of changed rows is answered; the sweep is the protocol's step |
| Database.Database.SelectQueued | internal/queue/queue.go:149-164 | locks a queued, unlocked job of an existing project such that no other one has a higher priority, or the same and is older; or there is none |
| Database.Database.CountCap | internal/queue/queue.go:177-198 | counts the busy jobs row by row and goes on exactly below the cap, otherwise ends the transaction, dropping its own locks and no other |
| Database.Database.CheckCap | internal/queue/queue.go:166-198 | Lease's cap check as a whole, beside any other transactions: it passes exactly without a cap or below it, in exactly the steps lock and count, or none without a cap |
| Database.Database.EndTransaction | internal/queue/queue.go:144 | the end of a transaction drops its own locks and no other |
| Database.Database.CommitLease | internal/queue/queue.go:221-223 | publishes the image and drops the transaction's own locks and no other |
| Database.Database.Grant | internal/queue/queue.go:200-223 | update and commit together change exactly the locked row, as exactly those two steps, and drop only the transaction's own locks |
| Database.Database.LeaseSelected | internal/queue/queue.go:166-230 | Lease once it has selected a job: granted exactly without a cap or below it |
| Database.Database.Lease | internal/queue/queue.go:137-230 | beside any other transactions, if it need not wait for one: of the queued, unlocked jobs it takes one of the highest priority, and of those an oldest, of a project below its cap, and writes status, holder, expiry and attempts of that row and nothing else; or it changes nothing, and then there was no such job or the project of one that comes first was at its cap; all locks are as before; the exact steps are named |
| Database.Database.MarkRunning | internal/queue/queue.go:232-247 | succeeds exactly for the holder of a leased job, changes only that row, keeps the first start |
| Database.Database.Complete | internal/queue/queue.go:249-273 | refuses a status that is not terminal; otherwise succeeds exactly for the holder of a job in flight and writes only that row, with the outcome, the finish time and the message, NULL exactly if empty |
| Database.Database.CountRun | internal/run/run.go:267-285 | goes on exactly when the run has jobs and all are terminal, with the verdict failed exactly when one failed or timed out, and the counts |
| Database.Database.CountJobs | internal/run/run.go:269-275 | one pass over the rows yields the run's jobs, its finished and its failed ones |
| Database.Database.MaybeFinishRun | internal/run/run.go:264-292 | undisturbed, it closes an open run whose jobs are all done, as failed exactly if one of them failed or timed out and else as succeeded, with the counts; it leaves a terminal or unfinished run and every other run alone, and takes the update step exactly when the jobs are all done |
| Database.Database.CompleteAndFinish | internal/worker/worker.go:197-202 | completing and then finishing, as exactly those steps: the holder's job is completed, for any other worker the table stays as it is, and either way the run is closed if its jobs are done |
| Database.Database.Conclude | internal/worker/worker.go:197-235 | what execute does once the job is running: completed as reported and its run closed if done, or left alone on a cancelled context |
| Database.Database.ExecuteKnown | internal/worker/worker.go:189-235 | what execute does for a registered collector: the holder's leased job is started, then completed with the reported outcome or left running on a cancelled context; a worker that no longer holds it stops there; the whole job table and the exact steps are stated |
| Database.Database.Execute | internal/worker/worker.go:171-236 | for the holder of the leased job: failed without being started for an unknown collector, with the text that names it; else started, and then failed with their text for unresolved secrets, succeeded without an error on a nil error, timed out or failed with the message on others, left running on a cancelled context; a worker that no longer holds the job changes no job, and no other row ever changes; an open run whose only job this is ends succeeded exactly on a nil error and else failed; the exact steps are named |
| Database.OnlyJobDecides | internal/run/run.go:264-292 | an open run closed over its only job is failed if that failed or timed out and succeeded otherwise |
| Database.Database.Preempted | internal/worker/worker.go:222-225 | on shutdown the worker goes idle and no row changes |
| Audit.CanonicalInjective | internal/audit/audit.go:184-206 | two events have the same canonical object exactly when they are equal: absent fields do not collide with present ones |
| Audit.CanonicalFields | internal/audit/audit.go:184-206 | the hashed object has exactly the fields action, target_kind, target_id, and project_id, actor_token_id and metadata when the event has them, each with the event's own value |
| Audit.MessageBytes | internal/audit/audit.go:173-182 | what is signed, byte for byte: the length of the previous hash as a big-endian number of eight bytes, all zero in front of the first event and ending in 32 in front of any other, then that hash, then the event |
| Audit.MessageInjective | internal/audit/audit.go:173-182 | the length-prefixed message determines previous hash and canonical bytes, save that NULL and empty are one |
| Audit.SameHash | internal/audit/audit.go:173-206 | without collisions among the messages that occur, equal chain hashes mean equal previous hash and equal event |
| Audit.SelfHashesDistinct | internal/audit/audit.go:93-109 | all self hashes of an intact chain differ |
| Audit.EditsShow | internal/audit/audit.go:142-167 | whatever events are rewritten in place, a row passes Verify's two tests exactly when its event is the original one |
| Audit.EditLocated | internal/audit/audit.go:117-171 | editing row k's event in any way, also so that it no longer parses, makes Verify answer exactly row k's id |
| Audit.OverwriteLocated | internal/audit/audit.go:117-171 | whatever one row is overwritten with, previous and own hash included, Verify names that row, unless it is linked as before and signed, hence of another event: then the row after it, if there is one |
| Audit.SelectionLocated | internal/audit/audit.go:117-171 | whatever rows of an intact log are dropped, reordered or repeated, under whatever ids, Verify answers 0 exactly if the first rows are left as they were, and else names the first row that is not in its place |
| Audit.DeletingProjectBreaksChain | internal/store/postgres/migrations/0001_init.up.sql:25-48 | nulling a deleted project's id and its tokens' ids makes Verify answer exactly the first event of the project or by one of its tokens, or 0 if there is none |
| Audit.DeletionLocated | internal/audit/audit.go:117-171 | deleting a row other than the last makes Verify answer exactly its successor's id |
| Audit.TruncationUnseen | internal/audit/audit.go:117-171 | Verify answers 0 on every prefix of an intact log |
| Audit.HeadDeterminesLog | internal/audit/audit.go:117-182 | two intact logs with the same last hash hold the same events under the same hashes, row by row |
| AuditLog.NewRowChains | internal/audit/audit.go:85-106 | one more row continues an intact chain exactly when its event reads back from its column with the hash it was signed for |
| AuditLog.ReadsBackMeans | internal/audit/audit.go:146-167 | an event reads back exactly if its canonical bytes are the same before and after storing, the two messages not colliding; if they are, it does after any head |
| AuditLog.Logger.Append | internal/audit/audit.go:60-115 | refuses an event without action or target kind and changes nothing; otherwise appends one row for the event, linked to the last row's hash and signed with the MAC of the message, whatever the state of the chain; the chain is intact afterwards exactly if it was and the event reads back |
| AuditLog.Logger.Verify | internal/audit/audit.go:117-171 | answers 0 for an intact chain and else the first bad row's id, on whatever the table holds, also metadata that does not parse |
| AuditLog.InvKept | internal/audit/audit.go:75-115 | every statement, commit or rollback of every Append transaction keeps the committed rows linked one to the next in rising id order, and the lock holder's reading of the head current |
| AuditLog.AppendAlone | internal/audit/audit.go:75-115 | undisturbed, the four statements and the commit of the transaction can be taken one after the other and append exactly the row of the method Append |
| AuditLog.RollbackLeavesLog | internal/audit/audit.go:79 | a rollback is possible at every stage, leaves the log alone and frees the lock |
| AuditLog.ConcurrentAppendsVerify | internal/audit/audit.go:75-171 | at every moment of every interleaving of Append transactions the log is one unforked list in rising id order, and Verify answers 0 exactly if every event in it reads back from its column, and else the first that does not |
| Ports.TokensAgree | internal/collector/porttcp/porttcp.go:138-156 | on every token the Go and the Rust reading agree: same range or both refuse |
| Ports.TokenMeans | internal/collector/porttcp/porttcp.go:138-156 | in either language a token is accepted exactly if it is a number, optionally signed plus and zero-padded, or two with a dash between them, in order and within 1 to 65535, and stands for the ports from the first to the second |
| Ports.TrimPadded | internal/collector/porttcp/porttcp.go:134 | blanks around a token go, whatever is inside stays |
| Ports.ParsersAgree | collectors/rust/discover-tcp/src/main.rs:35-65 | on every string the two parsers give the same answer |
| Ports.AnswerInRange | internal/collector/porttcp/porttcp.go:131-164 | an accepted list is not empty and lies within 1 to 65535 |
| Ports.ScannedAll | internal/collector/porttcp/porttcp.go:157-159 | after the loop the collected set is empty exactly when the string is to be refused, and is the union of the tokens' ranges |
| Ports.Sort | internal/collector/porttcp/porttcp.go:160-163 | a rising list of the same ports |
| Ports.Collect | internal/collector/porttcp/porttcp.go:160-162 | each port of the set once, in whatever order the map yields them |
| Ports.ParsePortsGo | internal/collector/porttcp/porttcp.go:129-164 | an error exactly when every piece is blank or one is malformed; otherwise the strictly rising list of the union of the tokens' ranges |
| Ports.ParsePortsRust | collectors/rust/discover-tcp/src/main.rs:35-65 | the same for the Rust parser |
| Ports.PortsRoundTrip | internal/collector/porttcp/porttcp.go:129-164 | the comma-joined decimals of a non-empty strictly rising list of ports have that list as their answer |
| Ports.ListMeans | internal/collector/porttcp/porttcp.go:129-164 | a comma-joined list of ports and ranges, blank-padded at will, is read as the strictly rising list of the ports of all of them, and refused exactly if one is out of order or out of range |
| Scan.Reachable | internal/collector/porttcp/porttcp.go:81-103 | at every moment slots and WaitGroup count the goroutines that hold them, the mutex is held by the one goroutine at the list, and the list is what the goroutines have stored |
| Scan.DialsAreBounded | internal/collector/porttcp/porttcp.go:66-89 | at most as many goroutines are dialling as the concurrency says, one if it is below one; the launcher waits for a slot only while that many are taken; ports are launched in list order |
| Scan.CancelStopsLaunching | internal/collector/porttcp/porttcp.go:81-84 | after a cancellation at most one more port is dialled |
| Scan.NeverDeadlocks | internal/collector/porttcp/porttcp.go:81-103 | some goroutine or the launcher can move until Wait has returned, and none after |
| Scan.ScanEnds | internal/collector/porttcp/porttcp.go:81-103 | every run is over after at most eleven steps a port and three more |
| Scan.OpenIsWhatAnswered | internal/collector/porttcp/porttcp.go:76-103 | when Wait has returned, the list holds exactly the ports whose dial was launched and succeeded, each once, and all ports were launched unless the context was cancelled |
| Scope.EvaluateConcat | internal/scope/scope.go:195-215 | the verdict of a list is that of its front part if a rule there decides, else that of the rest |
| Scope.FirstMatch | internal/scope/scope.go:195-215 | the verdict is that of the first rule that applies, or out of scope |
| Scope.VerdictMeans | internal/scope/scope.go:195-302 | in the rule's and the target's own columns: the first rule decides, with its effect and both its caps, whose port range if it has one holds the target's port, whose window holds the time, its start included and its end not, and whose value names the target in the way of its kind; without one the verdict is out of scope, without caps. Kind by kind: the target's host, its name letter by letter up to case, the end of its name after a dot, the front of its URL, the path or host of its URL, its account |
| Scope.HostRuleOnHostPort | internal/scope/scope.go:217-289 | a host rule decides a target known only as host:port by the host before the port |
| Scope.ValidRuleApplies | internal/scope/scope.go:144-182 | a validated rule of a kind that needs no address or URL parsing is about some target at some time, unless its window is one instant, and then it is about nothing |
| Scope.EvaluateIsLeast | internal/scope/scope.go:191-215 | over rising orders it is that of the applicable rule of least order, and out of scope without a rule exactly when none applies |
| Scope.InsertedRule | internal/scope/scope.go:195-215 | a rule put in anywhere decides exactly when nothing before it does and it applies, and else changes nothing |
| Scope.DenyIsSafe | internal/scope/scope.go:195-215 | a deny rule put in anywhere leaves each verdict or makes it deny |
| Scope.AppendedRule | internal/scope/scope.go:195-215 | an appended rule changes only verdicts that no rule decided |
| Scope.DeletedRule | internal/scope/scope.go:195-215 | deleting a rule that did not decide changes nothing |
| Scope.SuffixIsLabels | internal/scope/scope.go:242-249 | ending in a dot and the base is ending in the base's labels after at least one more |
| Scope.WildcardIsLabelwise | internal/scope/scope.go:144-242 | a validated wildcard rule can be sliced, has a base, and matches exactly the DNS names whose case-folded labels properly end in the base's |
| Scope.SuffixIsExactOrWildcard | internal/scope/scope.go:233-249 | a suffix rule matches exactly what the exact or the wildcard rule on the same base matches |
| ScopeStore.ListedHolds | internal/scope/store.go:67-96 | the sorted table holds exactly the project's rules |
| ScopeStore.ListedRises | internal/scope/store.go:67-96 | in strictly rising order, the orders being unique per project |
| ScopeStore.Store.Create | internal/scope/store.go:25-65 | a conflict exactly when the project has a rule of that order, and then nothing changes; otherwise one new row |
| ScopeStore.Store.List | internal/scope/store.go:67-96 | exactly the project's rules, in strictly rising order |
| ScopeStore.Store.Delete | internal/scope/store.go:98-109 | not found exactly when the project has no such rule; otherwise that one row is gone |
| ScopeStore.CreatedDenyIsSafe | internal/scope/store.go:25-65 | storing a deny rule at any free order leaves every verdict of its project or makes it deny, and other projects' verdicts alone |
| ScopeStore.DeletedRuleIsInert | internal/scope/store.go:98-109 | deleting a stored rule that does not decide a verdict leaves that verdict |
| Planner.EnqueueMultiplicity | internal/run/run.go:140-179 | a job is enqueued as often as its capability occurs in the request times the allowed targets of its kind and identity |
| Planner.PlannedInScope | internal/run/run.go:144-173 | whatever a plan enqueues, also one that fails midway, is for a target of the request whose verdict was allow |
| Planner.AddsUp | internal/run/run.go:140-179 | enqueues and drops add up to the product of the two list lengths |
| Planner.DropsCount | internal/run/run.go:145-162 | a plan has as many scope.dropped events as drops, repeated pairs counted as often |
| Planner.DropsExplained | internal/run/run.go:145-162 | every scope.dropped event names, with run, capability, reason and effect, deny or out_of_scope, a requested pair that scope does not allow, and every such pair has one |
| Planner.Planner.PlanOne | internal/run/run.go:144-177 | an allowed pair is one enqueue step and one job, any other pair one scope.dropped event and one drop; the audit log's refusal is reported and leaves everything as it was |
| Planner.Planner.PlanCapability | internal/run/run.go:143-178 | the inner loop stops exactly at the first target it can neither enqueue nor audit |
| Planner.Planner.PlanAll | internal/run/run.go:141-179 | the two loops enqueue all allowed pairs in order and audit all others, or stop within the first capability; the exact steps are named |
| Planner.Planner.Plan | internal/run/run.go:87-192 | fails exactly on an empty request or a target that is neither allowed nor has a kind, with the error of the first that holds, and what is then left behind; otherwise the new run's jobs are the allowed pairs, every other pair is one scope.dropped event, the counts are returned, the log grows by exactly the dropped count, and with nothing kept the run is succeeded; in every case the exact protocol steps it takes |
| Findings.Validated | internal/finding/finding.go:81-121 | an input is accepted exactly with a project, a collector, a target, a kind, a title and one of the five severities, and otherwise refused for the first that is missing; an accepted one is unchanged but for its dedup key, which it keeps if it had one and else gets as auto: and 32 characters of the digest |
| Findings.DigestTellsApart | internal/finding/finding.go:109-121 | target, kind and title, case aside, can be told from the digested text exactly if none of them contains a NUL |
| Findings.HitsMeans | internal/finding/finding.go:139-147 | an accepted emission reaches exactly one row, that of its own project and collector, and of the key it brings along if it brings one |
| Findings.FoldDescribes | internal/finding/finding.go:134-201 | after any history there is a row for a key exactly when one was accepted under it; id, first seen, kind and target come from the first, the mutable columns from the last, the evidence from all |
| Findings.ReplayIsIdempotent | internal/finding/finding.go:134-201 | replaying the whole history changes nothing but last_seen_at |
| Findings.Store.Upsert | internal/finding/finding.go:134-201 | refuses an invalid input with its first complaint and changes nothing; otherwise returns the row its first statement left, whatever others write before the second, whose two timestamps then make the flag |
| Findings.Store.Write | internal/finding/finding.go:139-187 | the first statement: at most one row more, under the input's key; a new row takes identity from the input, an old one keeps its id and its evidence |
| Findings.FlagExactlyRight | internal/finding/finding.go:192-200 | the inserted flag is right exactly if an inserted row has no refresh at another time before the second statement, and a refreshed row's last refresh by then was not in the instant it was first seen |
| Findings.InsertMisreported | internal/finding/finding.go:192-200 | when the times of the upserts in between follow the order they were applied in, an insert is reported as a refresh exactly if somebody refreshed the row at a later time before the second statement |
| Findings.RefreshHidesInsert | internal/finding/finding.go:192-200 | two workers with the same finding: the one that inserted it is told it did not |
| Findings.RefreshPassesForInsert | internal/finding/finding.go:192-200 | a row refreshed in the instant it was first seen is reported as inserted |
| Findings.ResolvedRefs | internal/worker/worker.go:402-414 | the evidence is the non-empty references, each known label replaced by its artifact's hash |
| Findings.IngestedMeans | internal/worker/worker.go:359-419 | a payload is quarantined exactly if it claims a target kind or identity other than its job's; otherwise the input has the job's project, run, collector and target, and the resolved references as evidence |
| Findings.IngestedRow | internal/worker/worker.go:359-427 | from payload to table: an ingested finding lands in the row of its job's project and collector with the payload's severity and texts, keeping a row's first sighting, target and earlier evidence |
| ScopeSafety.RowEnqueued | internal/queue/queue.go:107-135 | a job's run, project and target are at every later moment those it was enqueued with |
| ScopeSafety.RunCreated | internal/run/run.go:126-138 | a run's project is the one it was created for |
| ScopeSafety.StepFollows | internal/run/run.go:115-189 | an execution whose runs come of calls of Plan remains one after any step that is no planner's and any planner's step that is the next of its plan |
| ScopeSafety.PlanFollows | internal/run/run.go:87-192 | it remains one through a whole further call of Plan, at every moment of the call |
| ScopeSafety.JobInScope | internal/run/run.go:115-173 | in every such execution, every job at every moment is for a target of its plan's request that its project's stored rules allowed |
| ScopeSafety.FindingsInScope | internal/worker/worker.go:359-427 | in every execution whose runs come of calls of Plan, and whatever collectors put into their payloads: every finding's project is that of a plan, and its target kind and identity are those of a target that the project's stored rules allowed when that plan was made |
| Ndjson.TerminatedLine | internal/protocol/ndjson/ndjson.go:170-188 | a terminated line is delivered without its line end when that fits the cap and rejected exactly otherwise, for every buffer size |
| Ndjson.UnterminatedTail | internal/protocol/ndjson/ndjson.go:170-188 | a last line without a newline is rejected beyond the cap, lost exactly when it fills whole buffers before the end of the stream is known, delivered otherwise |
| Ndjson.LostTails | internal/protocol/ndjson/ndjson.go:170-188 | none is lost when the end of the stream comes with its last bytes; when it comes in a read of its own, those without CR are lost whose length is a multiple of the buffer's |
| Ndjson.BufferBounded | internal/protocol/ndjson/ndjson.go:170-188 | readLine never holds more than the cap and one segment |
| Ndjson.FramingRoundTrip | internal/protocol/ndjson/ndjson.go:142-188 | lines without newline or final CR and within the cap, written with newlines and any blank lines between, come back exactly, and then the end of the stream |
| Ndjson.SomethingComes | internal/protocol/ndjson/ndjson.go:142-188 | whatever bytes come are some blank lines, LF or CR LF, and then a line that is not blank or what no newline ends |
| Ndjson.BufReader.Fill | internal/protocol/ndjson/ndjson.go:139 | a read moves bytes into the buffer and loses none |
| Ndjson.BufReader.ReadSlice | internal/protocol/ndjson/ndjson.go:176 | the bytes up to the first newline, a full buffer, or the end, a pending end before a full buffer, however the stream is cut into pieces |
| Ndjson.BufReader.ReadLine | internal/protocol/ndjson/ndjson.go:176 | the next segment and what is left of the stream depend on the bytes to come alone |
| Ndjson.Reader.constructor | internal/protocol/ndjson/ndjson.go:131-140 | a 64 KiB buffer, and a cap of 1 MiB unless a positive one is given |
| Ndjson.Reader.ReadLine | internal/protocol/ndjson/ndjson.go:170-188 | the answer and the rest of the stream are those of the framing function, within the buffer bound, under every segmentation |
| Ndjson.Reader.Next | internal/protocol/ndjson/ndjson.go:142-168 | over the bytes to come: after any blank lines, the next line without its line end is answered as too long exactly beyond the cap, and else as malformed JSON, as typeless or as an event of the decoded type, and the stream goes on right after it; a last line without a newline is answered so too unless it is lost; end of stream is answered exactly if nothing but blank lines and nothing, or a lost line, is left; cancelled exactly if the context is done at one of the looks before its lines |
| Ndjson.Receive | internal/external/supervisor.go:92-117 | the supervisor's loop delivers the lines of the stream in order up to "done", the end or the first malformed one, and is content exactly after "done" or when the whole stream was events and no line was too long |
| Ndjson.WrittenIsReceived | internal/external/supervisor.go:92-117 | what a collector writes within the rules, blank lines aside, is what the supervisor delivers, event by event, without an error |

## Left out

- Database.Database.Lease: needs the advisory locks it takes to be free; waiting for one, and other sessions' steps between its statements, are the protocol's.
- Database.Database.Conclude: an error is a deadline or a cancellation, not both; one that is both would complete the job and skip finishing the run (internal/worker/worker.go:219-235), which the protocol has as the death of a worker about to close it.
- LeaseSafety.LeasesExclude: one monotone clock serves Postgres and the workers; with skewed clocks the recorded intervals would not be disjoint.
- Audit.EditLocated: HMAC-SHA256, json.Marshal and the way through the JSON column are parameters; the first two are assumed free of collisions only on what occurs in the logs compared. Which metadata reads back unchanged is a matter of those libraries.
- Findings.Store.Upsert: evidence is a set; the order of the array and repetitions in a first insert are not modelled.
- ScopeSafety.FindingsInScope: speaks of the scope at planning time, as the code has no later check.
- Scan.NeverDeadlocks: takes every dial to return, as its three-second timeout provides; the Rust collector's thread pool is not modelled.
- Scope.WildcardIsLabelwise: case folding is ASCII; Unicode folding is not modelled.
- Ndjson.Receive: the context stays live throughout, and errors of the emit callback, which end the loop as well, are left out.
- Ndjson.FramingRoundTrip: reads deliver at least one byte until the end; other read errors and JSON decoding (a parameter) are not modelled. bufio.Reader is not in the repository and is modelled by its documented behaviour.
- Fairness of Lease: a foremost job whose project is at its cap makes Lease answer nothing, so no promise is possible.
- CIDR and URL parsing, SHA-256 of the derived dedup key and the texts of reasons are parameters; for bare IPv6 identities the host split claims nothing.
- Notifications and poll timing, job parameters, deadlines, updated_at and job events: no safety content.
- Resetting or deleting rows by hand, cascading deletes of projects and runs from the queue's tables.
- Ingestion of discovered targets, artifacts, secrets, the HTTP API, the command line, the rest of the supervisor and the other collectors.
