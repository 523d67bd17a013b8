# worklease: the lease protocol, modelled and proved

worklease hands out leases on work IDs. A holder gets a fencing token, renews its
lease in the background, checkpoints state, and says how it ended when it
releases. This project models the protocol and the code that relies on it, and
proves what the library promises for every run.

| File | What it models |
|---|---|
| `types.dfy` | exit modes, records, errors as the set of sentinels they match |
| `store.dfy` | the store as a value and each backend operation as one atomic step |
| `protocol.dfy` | runs of the store by any number of clients, and what holds on all of them |
| `history.dfy` | the store as its log alone decides it: every answer, deletion and token, and how long a lease lasts |
| `memory.dfy` | the in-memory backend: heap records updated in place, and Sweep's delete-while-iterating loop |
| `postgres.dfy` | the SQL statements over a table, and the calls made of two statements |
| `linearizability.dfy` | whole histories of SQL calls with their statements interleaved, put in one order |
| `bisimulation.dfy` | the two backends compared, up to the names of tokens |
| `renewal.dfy` | the renewal goroutine, as a step machine and as its loops |
| `windows.dfy` | many clients with their own clocks, late Renew calls, and mutual exclusion |
| `client.dfy` | `leaseClient` on a live backend: Acquire's poll loop and the calls the drivers make |
| `drivers.dfy` | `Runner.Run` and `Elect` |
| `pool.dfy` | the slot pool: its constructor's checks and its concurrent slots |

How it fits together. `LeaseStore` gives each operation as a step on a value. The
methods of `MemoryBackend.Backend` are proved to be those steps on what the heap
stands for; the statements of `PostgresBackend` are proved to be them on the rows
of the table. `Protocol`, `Windows`, `Client` and `Drivers` then reason about the
steps, for both kinds of backend at once. In the same way
`Renewal.Goroutine` is proved to take only steps of the `Renewal` machine, and the
code of each slot in `SlotPool.Shared` only steps of the pool machine, whatever a
select, a clock, the scheduler or the other slots do.

`HistoryReference` is a second definition of the store, with no rows at all: what each
operation answers after a log of events. `HistoryDecides` says that the two agree
on every run.

Time is in nanoseconds. The backend clock never steps back; an in-memory
operation takes up to three readings and they are kept apart. Each client has a
constant offset from that clock. A `select` may take any ready branch. A call may
fail with no reply, whether or not the backend executed it.

Some properties hold only under a condition, and are stated as equivalences:

- `Renewal.NextBackoffExact`: nextBackoff is doubling with a cap exactly while the
  doubled interval fits an int64.
- `Renewal.WaitNeverShortExactly`: a backoff wait is never below its base exactly
  when base plus full jitter fits an int64.
- `Renewal.AttemptsFitExactly`: the retries of a cycle are paced, on every run,
  exactly when no wait or interval that a window of one TTL has room for wraps
  around. `Renewal.OrdinaryNeverOverflows` gives plain bounds that suffice; the
  defaults always do. What concerns the window itself holds for every policy.
- `Bisimulation.OneMicrosecondGrid`: the backends agree on a lease at every later
  microsecond exactly when the TTL is a whole number of microseconds.
- `Bisimulation.OneMicrosecondRetention`: they agree on what to sweep at every later
  microsecond exactly when the retention is not rounded up to one.
- `SlotPool.ActiveIsExactIffDistinct`: ActiveSlots is exact exactly when the work
  IDs are distinct, which `New` checks.
- `SlotPool.CancelDecides`: a caller that cancels still gets ErrAllSlotsDead exactly
  when every slot had taken the PermanentError branch by then.

Where code and comments differ, the code is followed. `nextBackoff` says it caps
the doubled interval and `backoffWait` that it is never below its base; neither
is so once the sum overflows. The comment on `Pool.Run` says it returns nil if its
context was cancelled; `SlotPool.CancelledYetAllDead` is a run where it does not.

## Model

| member | source | states |
|---|---|---|
| LeaseStore.IntervalIsCeiling | backend/postgres/postgres.go:115-124 | Go's truncated division and remainder give the least whole number of microseconds not shorter than the duration, for negative durations too |
| LeaseStore.StoredTtlCovers | backend/postgres/postgres.go:115-117 | neither backend stores an expiry earlier than its reading plus the TTL asked for |
| LeaseStore.RoundingIsNearest | backend/postgres/postgres.go:369 | the retention sent to SQL is the nearest whole microsecond, never above the one asked for exactly when its last three digits are under 500 |
| Protocol.RowNext | backend/memory/memory.go:101-286 | an operation changes a row only by acquiring it or by an accepted write, each in exactly one way, the new expiry and update time included, and leaves every other row alone |
| Protocol.RowCreated | backend/memory/memory.go:127-153 | a row comes into being only by Acquire, with no checkpoint, no exit and no previous holder |
| Protocol.ReplyFacts | backend/memory/memory.go:127-160 | a token is issued only by Acquire and lies above every earlier one; an accepted write found its record in the store |
| Protocol.InvNext | backend/memory/memory.go:101-371 | every operation keeps tokens unique and bounded by the counter, every row's token issued for that work ID and holder, and every declared exit declarable and already expired |
| Protocol.InvRun | backend/memory/memory.go:72-76 | the same over whole runs; issued records are never rewritten |
| Protocol.FencedReply | backend/memory/memory.go:181-184 | an operation with an issued record answers ErrFenced if and only if the record no longer identifies the row (Release checks its mode first), and a failed operation changes nothing |
| Protocol.FencedForever | backend/memory/memory.go:211-227 | once fenced, an issued record is fenced by every later operation with no effect on the store, across deletion and reacquisition by the same holder ID |
| Protocol.WritesInTokenOrder | backend/memory/memory.go:27-31 | in every run, an accepted Checkpoint, Renew, Release or Forget carries the latest token issued for its work ID, and accepted writes carry tokens in order |
| Protocol.ReadIsFoldOfHistory | backend/memory/memory.go:291-317 | ReadCheckpoint answers the last state written since the row was created, the previous holder, and its exit: ExitNone exactly for the first holder, ExitExpired when the previous one declared nothing |
| Protocol.PrevExitFixed | backend/memory/memory.go:120-150 | PrevExit and the previous holder never change during a lease |
| Protocol.DeclaredExitIsIrrevocable | backend/memory/memory.go:186-191 | until an Acquire, Forget or Sweep, no late Checkpoint, Renew or second Release changes a declared exit, and an Acquire at any later reading succeeds at once and carries it over |
| Protocol.DeclaredRowFrozen | backend/memory/memory.go:271-283 | over any run after which the row is still the declarer's, the whole row is unchanged |
| Protocol.DeclaredHandoff | backend/memory/memory.go:131-138 | after a declared exit the next Acquire succeeds, and its holder reads that exit, that holder and that state |
| Protocol.UndeclaredRun | backend/memory/memory.go:168-207 | while a holder declares nothing, nobody else can declare for it or change its previous exit, and without a Checkpoint of its own nobody changes its state |
| Protocol.LapsedHandoff | backend/memory/memory.go:133-136 | a holder that never declared an exit hands over as ExitExpired |
| Protocol.SweepKeeps | backend/memory/memory.go:355-367 | Sweep keeps every held, finished or abandoned row, changes no row it keeps, and draws no token |
| HistoryReference.HistoryDecides | backend/memory/memory.go:101-371 | in every run the answer of any next operation, and the rows it deletes, are those the log of earlier events calls for: who is held off or fenced, what has lapsed, what is read, what is swept |
| HistoryReference.LeaseLasts | backend/memory/memory.go:203-204 | from an accepted Acquire, Checkpoint or Renew until the next accepted write, every Acquire up to its reading plus TTL answers ErrLeaseHeld and every one a microsecond later succeeds, after a revival too |
| HistoryReference.CheckpointRevives | backend/memory/memory.go:163-167 | a Checkpoint by the last holder that declared nothing is accepted however late, and the lease then lasts its TTL from there |
| HistoryReference.SweepDecides | backend/memory/memory.go:355-367 | a released row goes only if retired and older than the retention; any other only if includeExpired is set, its TTL is over and its last write is older than the retention |
| HistoryReference.RowFromLast | backend/memory/memory.go:193-204 | the last accepted write alone gives a row its expiry, its update time and its declared exit |
| HistoryReference.TokensDrawn | backend/memory/memory.go:127 | tokens are counted exactly: one for each lease granted in memory; one for each Acquire and one more for each takeover in PostgreSQL |
| MemoryBackend.Backend.constructor | backend/memory/memory.go:87-96 | an empty store with its own counter |
| MemoryBackend.Backend.Acquire | backend/memory/memory.go:101-161 | the heap after the call, and the answer, are the atomic Acquire of the store it stood for; the record stored is fresh |
| MemoryBackend.Backend.Checkpoint | backend/memory/memory.go:168-207 | likewise for Checkpoint: an empty state clears, a declared exit refuses, a lapsed lease is revived |
| MemoryBackend.Backend.Renew | backend/memory/memory.go:211-241 | likewise for Renew, refused at the boundary reading |
| MemoryBackend.Backend.Release | backend/memory/memory.go:248-286 | likewise for Release, the mode checked before the context and the record |
| MemoryBackend.Backend.ReadCheckpoint | backend/memory/memory.go:291-318 | the answer is the atomic read, which compares the token alone; nothing changes |
| MemoryBackend.Backend.Forget | backend/memory/memory.go:322-339 | likewise for Forget: only the identified record goes |
| MemoryBackend.Backend.Sweep | backend/memory/memory.go:344-371 | for every iteration order, deleting while iterating removes exactly the eligible rows and counts them |
| MemoryBackend.SweptAmongIsFilter | backend/memory/memory.go:353-368 | after the first n keys of any order, exactly the eligible ones among them are gone, each counted once |
| MemoryBackend.SweptAmongAll | backend/memory/memory.go:353-370 | after all keys, the deleted set and count are those of the filter |
| PostgresBackend.ExitTextRoundTrip | backend/postgres/postgres.go:330-343 | the stored text of every exit mode reads back as that mode |
| PostgresBackend.StoredWords | backend/postgres/postgres.go:328-343 | which word means which mode, and that any other means expired |
| PostgresBackend.OldKeysAreSwept | backend/postgres/postgres.go:108-112 | the vacuum's WHERE clause selects exactly the rows Sweep may delete |
| PostgresBackend.InsertRefines | backend/postgres/postgres.go:36-50 | the INSERT with its conflict clause is the atomic Acquire, tokens drawn included |
| PostgresBackend.WriteRefines | backend/postgres/postgres.go:52-86 | each UPDATE hits a row exactly when the atomic operation succeeds, with the same new row, and otherwise changes nothing |
| PostgresBackend.ExecRefines | backend/postgres/postgres.go:36-112 | every statement changes the table as the operation changes the rows, and keeps the schema's constraint |
| PostgresBackend.ExecAllRefines | backend/postgres/postgres.go:36-112 | so does every sequence of statements |
| PostgresBackend.TwoStatementLinearizable | backend/postgres/postgres.go:185-289 | for an issued record and any statements between UPDATE and SELECT: success is the atomic operation at the UPDATE, ErrFenced its answer at the SELECT, ErrLeaseExpired its answer at the UPDATE |
| PostgresBackend.HistoryLinearizable | backend/postgres/postgres.go:185-289 | the same for any zero-row UPDATE and its SELECT anywhere in any history from the empty table |
| PostgresBackend.CallRefines | backend/postgres/postgres.go:157-381 | every call that nothing interrupts is the atomic operation, reply and rows, TTLs and retentions rounded as the source rounds them |
| PostgresBackend.Backend.Acquire | backend/postgres/postgres.go:157-178 | the table after the one INSERT is the store after the atomic Acquire at one reading, and the reply is its reply, tokens and expiry included |
| PostgresBackend.Backend.Checkpoint | backend/postgres/postgres.go:185-219 | under any statements of others, the call is linearized: success is the atomic Checkpoint at the UPDATE, ErrFenced its answer where the call ends, ErrLeaseExpired its answer where it began; a refusal leaves only what others did |
| PostgresBackend.Backend.Renew | backend/postgres/postgres.go:224-251 | the same for Renew |
| PostgresBackend.Backend.Release | backend/postgres/postgres.go:257-289 | the same for Release; an undeclarable mode touches nothing |
| PostgresBackend.Backend.ReadCheckpoint | backend/postgres/postgres.go:294-326 | the reply is the atomic read of the store the table stands for, NULL, empty and unknown column values included |
| PostgresBackend.Backend.Forget | backend/postgres/postgres.go:348-363 | the table after the one DELETE is the store after the atomic Forget, and the reply its reply |
| PostgresBackend.Backend.Sweep | backend/postgres/postgres.go:368-381 | the table after the one DELETE is the store after the atomic Sweep at one reading, with the retention rounded to a microsecond, and the count its count |
| PostgresBackend.Backend.Others | backend/postgres/postgres.go:185-289 | whatever statements other connections run, the table stays a store that operations lead to |
| PostgresBackend.FencedCallsStayFenced | backend/postgres/postgres.go:185-289 | once a two-statement call with an issued record was told ErrFenced, every later one with it is, whatever ran between and during them |
| Linearizability.Linearizable | backend/postgres/postgres.go:157-381 | for any interleaving of the statements of any calls there is one order of all the calls, each once, in keeping with real time, in which the atomic store gives every call the answer it was given and ends with the rows of the table |
| Linearizability.AtPoint | backend/postgres/postgres.go:185-289 | every call is atomic at one of its statements: a fenced one at its SELECT, any other at its first |
| Linearizability.NotAPoint | backend/postgres/postgres.go:185-289 | a statement at which no call takes effect changes nothing |
| Linearizability.SingleStatement | backend/postgres/postgres.go:157-381 | a call that needed one statement is the atomic operation there |
| Linearizability.OverlappingIsProper | backend/postgres/postgres.go:224-251 | such histories include overlapping calls: an Acquire inside a Renew with a stale record takes effect first |
| Linearizability.PointsKeepTime | backend/postgres/postgres.go:185-289 | ordering calls by those statements keeps real time |
| Bisimulation.AcquireRelated | backend/postgres/postgres.go:36-50 | an Acquire on both backends keeps them related, and the new tokens extend the order-preserving renaming |
| Bisimulation.WriteRelated | backend/memory/memory.go:168-286 | a Checkpoint, Renew or Release on both, with the renamed record, answers alike and keeps them related |
| Bisimulation.SweepRelated | backend/memory/memory.go:344-371 | a Sweep on both deletes the same rows and answers the same count, if the retention is a whole microsecond, or is rounded down and all readings are whole microseconds |
| Bisimulation.BackendsBisimilar | backend/memory/memory.go:101-371 | on every sequence of operations over issued records, one reading each, with TTLs of whole microseconds and retentions as SweepRelated asks, the SQL calls and the in-memory operations give the same replies and rows up to an order-preserving renaming of tokens |
| Bisimulation.OneMicrosecondGrid | backend/postgres/postgres.go:115-124 | the two agree on a lease at every later microsecond if and only if the TTL is a whole number of microseconds |
| Bisimulation.OneMicrosecondRetention | backend/postgres/postgres.go:368-370 | after one history the two Sweeps agree at every later microsecond if and only if the retention is not rounded up |
| Renewal.NextBackoffExact | renewal.go:309-316 | nextBackoff is doubling capped at the maximum if and only if the doubled interval fits an int64 |
| Renewal.WaitsAreDrawn | renewal.go:300-307 | the waits of the model are exactly those backoffWait can draw, int64 wrap-around and the half-open range included |
| Renewal.WaitNeverShortExactly | renewal.go:300-307 | no drawn wait is below its base if and only if base plus full jitter fits an int64 |
| Renewal.RetryWaitDoubles | renewal.go:174-228 | the base of retry k + 1 is min(initial·2^(k+1), max) if and only if doubling that of retry k fits an int64 |
| Renewal.RenewalAccounting | renewal.go:173-292 | on every run, under any policy, the cause is set at most once, to fenced or exhausted, and never on stop or parent; each Renew gives exactly one OnRenew, numbered 1, 2, … within a cycle; OnFenced fires exactly once, and exactly when the cause is ErrFenced |
| Renewal.AttemptsFitWindow | renewal.go:173-231 | when nothing overflows, in a cycle the window stands still, the waits before its n - 1 retries fit in what was left of it, and so attempts are bounded |
| Renewal.AttemptsFitExactly | renewal.go:173-231 | for every policy an option can store and every TTL, the attempts of all runs are so paced if and only if no wait or interval the window has room for wraps around |
| Renewal.OrdinaryNeverOverflows | renewal.go:300-316 | nothing wraps around with a cap below 2^62 ns, or a TTL up to 2^61 and an initial interval up to 2^62, or no jitter and a TTL up to 2^62 |
| Renewal.Overrun | renewal.go:300-316 | any wait or interval that does wrap around gives a run whose attempts come too early |
| Renewal.WindowNeverMovesBack | renewal.go:197-198 | no step moves the tracked or the published window backwards |
| Renewal.WindowIsLastSuccess | renewal.go:66-107 | on every run the window is exactly the deadline until a Renew returned nil, and then the local start of the last one that did plus TTL; what is published is that window when it was last stored |
| Renewal.ExitsAreExplained | renewal.go:84-104 | on every run the goroutine exits exactly at a stop, its parent, a closed window, a fenced or expired answer or a failure past the window, each with exactly its cause |
| Renewal.GoesOn | renewal.go:173-231 | at any other input: the attempt it makes, the report it gives, the wait it sleeps out, the window it stores |
| Renewal.WindowKeptStep | renewal.go:84-108 | every step, under any policy, keeps the window at most a TTL past the last reading, and the published window equal to it except between a success and its publication |
| Renewal.RetriesFitStep | renewal.go:173-231 | every step keeps the attempt number, its base and the waits so far inside the window |
| Renewal.RenewalConfig.constructor | renewal.go:54-60 | the defaults: half the TTL but at least a nanosecond, 100 ms, 5 s, 0.2; with them nothing overflows under any TTL |
| Renewal.RenewalConfig.WithRenewalBackoff | lease.go:332-353 | any arguments leave a usable policy, 0 < initial <= max and jitter in [0, 1]; usable ones are kept as given |
| Renewal.Goroutine.constructor | renewal.go:65-70 | the first window, tracked and published, is the token's deadline |
| Renewal.Goroutine.RenewAttempt | renewal.go:260-292 | one attempt is one launch, at a reading of its own, and one report, and leaves the window alone, whichever ready branch is taken |
| Renewal.Goroutine.DrawWait | renewal.go:302-307 | for every random number the wait is base plus that share of the full jitter, wrapped to int64, and one the machine allows |
| Renewal.Goroutine.Backoff | renewal.go:201-229 | a retry happens before the window closes, no earlier than its base allows unless the wait wraps around, with the next attempt number and interval; otherwise the goroutine exits |
| Renewal.Goroutine.Sleep | renewal.go:206-227 | the select of a backoff ends after its timer and inside the window, or in an exit |
| Renewal.Goroutine.Conclude | renewal.go:178-199 | an attempt renews exactly when it returned nil, and then the window is its start plus TTL; any other leaves the window and exits |
| Renewal.Goroutine.RenewCycle | renewal.go:173-231 | a cycle leaves the goroutine renewed, with the window at the start of its last attempt plus TTL, or exited, with the window as it was; unless something overflows it ends within as many retries as the window had nanoseconds left |
| Renewal.Goroutine.AwaitTick | renewal.go:84-102 | the outer select ends in a tick inside the window or in an exit |
| Renewal.Goroutine.Loop | renewal.go:84-108 | the goroutine takes only enabled steps of the machine; the published window is the start of the last successful Renew plus TTL, or the first window, and never moves backwards; unless something overflows no cycle takes more than TTL retries |
| Windows.CoveredNext | renewal.go:31-40 | no operation by anyone breaks a bound taken from an earlier local start plus TTL |
| Windows.SysInvNext | renewal.go:31-49 | every action of the system keeps every bound a client may act on inside the stored expiry |
| Windows.WindowsAreSound | renewal.go:120-128 | in every reachable state the published and the tracked window, on the backend's clock, are at most the stored expiry while the token's row stands undeclared, late Renew calls included |
| Windows.PublishedNeverMovesBack | renewal.go:106-107 | no action moves what LeaseWindow reports backwards |
| Windows.OneRenewInFlight | renewal.go:42-47 | a goroutine never launches a Renew while another of its calls is in flight |
| Windows.LeaseFromAcquire | acquire.go:35-41 | a lease is handed out by the one Acquire granted its token, with that call's own start plus its TTL as the deadline, and stays so |
| Windows.WindowsAreExact | renewal.go:31-35 | in every state of every behaviour a goroutine's window is its lease's deadline until a Renew of its own returned nil, and then the start of the last such call plus TTL |
| Windows.LandsAnswers | renewal.go:265-268 | what a Renew that lands tells its goroutine: fenced exactly when the lease is gone, expired exactly when its expiry is reached |
| Windows.FencedMeansLost | renewal.go:188-191 | in every state of every behaviour, once OnFenced was called the lease is gone, if a call that brings no answer does not claim so itself |
| Windows.RelinquishedMeans | renewal.go:51-52 | the leases counted as given up are those with an accepted Release or Forget |
| Windows.OpenMeansHeld | renewal.go:120-128 | while a window is open and the lease not given up, the row stands, undeclared and unexpired |
| Windows.MutualExclusion | renewal.go:31-40 | at most one token of a work ID has an open window, in every state of every behaviour |
| Windows.OpenWindowExcludesOthers | backend/memory/memory.go:115-118 | while a window is open every Acquire of the work ID answers ErrLeaseHeld, and Sweep leaves the row as it is |
| Client.LeaseClient.Invoke | acquire.go:52-57 | a call with a reply is one operation; one without may or may not have been executed |
| Client.LeaseClient.Acquire | acquire.go:19-77 | success is a held, issued, undeclared lease whose deadline is exactly the local start of the attempt that succeeded plus TTL, and on the backend's clock at most the stored expiry; the answer is that of the last attempt, one event and one clock reading each, unless a context error ended a wait; only a work ID makes an attempt, and a waiting Acquire never returns ErrLeaseHeld |
| Client.LeaseClient.Attempt | acquire.go:51-57 | one attempt: its start lies before the backend's reading, and the only refusal is ErrLeaseHeld |
| Client.LeaseClient.Checkpoint | backend/memory/memory.go:168-207 | success means the row is held, undeclared, carries the state and lasts at least a TTL from before the call; a refusal is ErrFenced exactly when not held and ErrLeaseExpired exactly after a declared exit |
| Client.LeaseClient.Release | backend/memory/memory.go:248-286 | success records the mode; a refusal is ErrFenced exactly when not held and ErrLeaseExpired when lapsed, and leaves the store alone; no outcome touches the state |
| Client.LeaseClient.ReadCheckpoint | backend/memory/memory.go:291-317 | never changes the store; the one refusal is ErrFenced, and means the record is no longer held |
| Client.OthersKeep | backend/memory/memory.go:181-184 | while a lease is still held, others cannot have declared its exit, nor changed its state once its holder stopped working |
| Drivers.Driver.Run | worker/runner.go:136-212 | whether WorkFn runs follows from what Acquire's attempts and the one ReadCheckpoint answered. For the work ID asked for and this client as holder, Run returns nil if and only if its single Release recorded ExitFinished or ExitRetired, as WorkFn's outcome calls for, and then the row carries it and the final state; no Release when fenced, exhausted, panicking or unread; the exact mode and error for every outcome, cause, Checkpoint and Release answer; what was not recorded is left undeclared |
| Drivers.Driver.Attend | worker/runner.go:158-212 | from WorkFn on: the exact mode and error for every outcome, cause, Checkpoint and Release answer; a panic releases nothing |
| Drivers.Driver.Cleanup | worker/runner.go:175-211 | a fenced final Checkpoint ends with no Release; another failure, and only that, turns the mode into ExitAbandoned; the error is ErrFenced, WorkFn's own, the Checkpoint's or the Release's, in that order; a final state that was stored stays stored whatever becomes of WorkFn's error or the Release |
| Drivers.Driver.Elect | leader/leader.go:143-255 | fn runs exactly when Acquire's attempts ended in a lease; the same mapping, for the work ID asked for and this client as holder; OnElected, OnLost and OnRelinquished fire in order, the last exactly when the Release recorded ExitFinished or ExitRetired, and never both of the last two; the pacing of every path, with no idle wait when Acquire itself waits |
| Drivers.Driver.Preside | leader/leader.go:194-254 | from fn on: the mapping, OnLost never with a recorded exit, and the pacing; a panic releases nothing |
| Drivers.Driver.Conclude | leader/leader.go:208-254 | no Release when fenced or exhausted, no backoff when fenced, and otherwise the mapped Release |
| Drivers.Driver.Relinquish | leader/leader.go:220-254 | one Release with the mapped mode, OnRelinquished exactly when recorded, and no backoff when fenced |
| Drivers.MappingDetermines | worker/runner.go:165-211 | the mapping both drivers are proved to implement determines the Release call, or its absence, and the error returned |
| Drivers.MappingMeans | worker/runner.go:165-211 | the mapping in the sentinels' own terms: what releases nothing, and which outcome is finished, retired or abandoned |
| Drivers.SuccessorReadsExit | worker/runner.go:117-124 | after a run that returned nil, whatever others and late Renew calls do, the next holder of the row reads exactly that exit, that holder and the final state |
| Drivers.SuccessorReadsExpired | worker/runner.go:125-134 | after an outcome that recorded nothing, a successor to the lease reads ExitExpired |
| SlotPool.PoolAccounting | pool/pool.go:333-424 | at every interleaving dead counts the slots past the PermanentError branch; the pool's own cancel comes only when that is all of them, and always by the time they have left; Run ends with ErrAllSlotsDead exactly when every slot exited dead |
| SlotPool.SlotEnds | pool/pool.go:386-404 | on every run a slot is retired only after its work function retired and its run answered nil, dead only after a counted permanent error that was not fencing, and cancelled only if the caller cancelled |
| SlotPool.AfterReturn | pool/pool.go:386-414 | what a slot does after every answer, told from its own moves and whether the caller cancelled, with the interval it sleeps |
| SlotPool.NilMeans | pool/pool.go:329-330 | Run ends with nil if and only if some slot retired or stopped on a cancelled context, which was then the caller's; with a caller that never cancels, if and only if some slot retired |
| SlotPool.CancelDecides | pool/pool.go:325-330 | for a cancel at any moment of any run: ErrAllSlotsDead is still returned if and only if every slot had by then taken the PermanentError branch |
| SlotPool.CancelledYetAllDead | pool/pool.go:399-404 | a run in which the caller cancels and Run still ends with ErrAllSlotsDead, against the comment |
| SlotPool.ActiveRun | pool/pool.go:355-368 | with distinct work IDs, at every interleaving the active set is exactly the slots inside their marked region |
| SlotPool.ActiveIsExactIffDistinct | pool/pool.go:355-368 | the active set is exact at every interleaving if and only if the work IDs are distinct |
| SlotPool.ScanWorkIDs | pool/pool.go:274-284 | the scan accepts exactly the lists of distinct non-empty IDs, and otherwise reports the least invalid index and, for a duplicate, its earliest twin |
| SlotPool.New | pool/pool.go:263-320 | accepted exactly when all six conditions hold; which error is returned for every way to miss them, in the source's order; every pacing interval ends up positive, kept if it was |
| SlotPool.Shared.RunOnce | pool/pool.go:354-382 | moves of the pool lead from the state before to the state after, in which this slot made none, or marked and unmarked its work function, whatever the others do meanwhile |
| SlotPool.Shared.Others | pool/pool.go:344-347 | the others and the caller may make any moves of theirs, this slot makes none |
| SlotPool.Shared.Sleep | pool/pool.go:431-441 | a slot wakes, or leaves because a context was cancelled |
| SlotPool.Shared.Round | pool/pool.go:350-415 | one round is a sequence of moves of this slot among those of the others, and what follows each answer, nil, fenced, permanent, held or other, with and without a cancel, is stated; it counts itself exactly when it ends dead |
| SlotPool.Shared.Decide | pool/pool.go:384-414 | the switch on the answer, first match wins: the slot's further moves and where it ends up |
| SlotPool.Shared.Loop | pool/pool.go:347-416 | the code of a slot only makes moves of the machine, from the state it began in, under any interference; it counts itself at most once, exactly when it ends dead, and no cancel is taken back |
| SlotPool.Shared.Die | pool/pool.go:399-404 | this slot's moves are counting itself, once, and leaving; if its own Add reached the total, the pool is cancelled |
| SlotPool.LeadsGrows | pool/pool.go:338-404 | whatever the others do, dead grows by at least what a slot adds, and no cancel is taken back |
| SlotPool.Shared.Result | pool/pool.go:419-423 | after any interleaving in which every slot is gone, ErrAllSlotsDead is returned if and only if every slot exited dead |
| SlotPool.Shared.ActiveSlots | pool/pool.go:447-455 | at any moment, with distinct work IDs, the list holds exactly the work IDs inside their marked region, each once |

## Left out

- Driver errors, SQLSTATE, error texts and the wrapping of context errors: an error is the set of sentinels it matches, and a call with no reply may carry a context error or none.
- PostgreSQL internals: each statement is atomic with one reading of NOW(); a NOW() frozen at transaction start during a row-lock wait, and a nextval drawn before a conflicting insert commits, are not modelled. Errors between the two statements are calls with no reply.
- LeaseStore.RoundingIsNearest: formatting the retention with six decimals is taken as exact rounding, a tie upward; the source formats a float64, which can send a tie either way and cannot hold the microseconds of retentions of many decades.
- A backend clock that steps, and clients whose offset drifts: the source says its window claim does not cover them.
- Wrap-around of the 64-bit fencing counter, and durations so long that adding or subtracting them saturates; only the backoff interval and wait are modelled with their overflow.
- Floating point in the jitter: the random number and the jitter are reals, truncated toward zero, without rounding.
- Renewal.Goroutine.Loop: watches the goroutine for any given number of ticks, and of retries in a cycle, since it has no bound of its own; the ticker's interval is not tied to the clock.
- Client.LeaseClient.Acquire: the context is taken to end after some number of polls; the poll interval is any time that passes.
- Drivers.Driver.Run: what the work function and the renewal goroutine did is an argument, any combination of them; the function itself is taken not to call Release or Forget with its token, and after it returns only Renew calls already launched may still carry it.
- Drivers.Driver.Elect: OnLost is given by a flag, with the cause the renewal goroutine then left; every callback is set; a nil callback is a callback that does nothing. Nil lease and nil function checks are left out.
- SlotPool.Shared.Loop: watches a slot for any given number of rounds; what Runner.Run answers is any answer, how long an interval lasts is any time, and a work function that panics is not modelled.
- Defensive copies of checkpoint bytes: byte sequences are values here, so aliasing cannot be expressed.
- Observers other than OnRenew, OnFenced, OnAcquire and Elect's callbacks, whose calls are logged: they change no state.
- `checkpoint/codec.go`, `vacuum.go`, the wrapper methods of `worklease.go`, String methods and the remaining options: they would only add easy members.
- Liveness on a real clock, such as how soon a timer fires or stopRenewal returns: it depends on the Go scheduler.
