# Akara: a verified model of its protocols and algorithms

A Dafny 4.11 model of the parts of the Akara analytics service where several
processes, crashes or awkward inputs meet: the import job queue, the concurrent
session tracker, versioned tenant patches, prompt publishing, the connector's
offline queue, the TOTP lockout, the copilot quota and the dunning cycle, together
with the profit/loss chart splitter, the message template scanner and the calendar
arithmetic of the dashboard and of Indian Standard Time. `dafny verify dfyconfig.toml`
checks all of it.

## How it is built

A database table is a `map`; an endpoint or a worker is a sequence of its statements;
time is an integer clock. Code that changes state appears twice. A class holds the
state, and its methods, loops included, follow the source statement by statement and
are proved against functions or relations on values. Beside it a state machine
interleaves the same statements from any number of callers, with crashes, and the
theorems are about every run of that machine. For the import queue, the sessions, the
tenant patches, the prompts and the quota a lemma shows that the method is one of the
machine's runs (those named `…IsASoloRun`); the agent's and the dunning worker's runs are made of
the very functions their methods are proved against.
Pure code is modelled by functions and lemmas alone.

| file | contents |
|---|---|
| `ImportJobs.dfy`, `ImportQueue.dfy` | the rows of `import_jobs` and the worker's methods; the queue with any number of workers and users |
| `Sessions.dfy`, `SessionHistory.dfy`, `SessionRaces.dfy` | one `record_session` call; serial histories; interleaved calls |
| `Segments.dfy`, `SegmentSigns.dfy`, `SegmentAreas.dfy` | the chart splitter; the signs of its segments; their areas |
| `TenantPatch.dfy` | compare-and-set patches and their audit trail |
| `Prompts.dfy` | three-write publishing, two-read resolving |
| `PushQueue.dfy`, `PushRuns.dfy` | the offline queue file, its push and its flush; whole runs of the agent |
| `Placeholders.dfy`, `Templates.dfy` | the `{{ name }}` scanner and substitution; template validation |
| `Lockout.dfy`, `Quota.dfy`, `Dunning.dfy` | sliding-window lockout, check-then-increment quota, reminders and downgrade |
| `Calendar.dfy`, `Decimals.dfy`, `DateRange.dfy`, `IndianTime.dfy` | dates and day numbers; numerals; the dashboard's ranges; IST days, months, weeks |
| `Options.dfy`, `Text.dfy`, `Induction.dfy` | an optional value; character classes; induction up to a number |

## What is established

**Import queue.** A lease exists only because of timing. `LeaseTheorem` says for which
timings: with heartbeats every 10 s up to 300 s and a 600 s staleness limit, a live
worker never loses its row in any punctual run if and only if attempts last at most 600
s, or every heartbeat's write works and they last at most 900 s with the delay of the
first status read, ten seconds and the lag of a heartbeat adding up to at most 600 s.
One heartbeat that raises ends all later ones unnoticed, so with failing writes only the
600 s are left. The worker's own pass, run alone, makes every heartbeat when it is due
and so meets each timing it is short enough for. From the lease follow one live worker
per job, outcomes written by the owner alone, and at most `max_retries + 1` claims per
job plus one per user retry. The retry count stays within 0 to 3 in every run,
hypothesis or not. The hypothesis, that no user write lands on a processing row, is
needed: `CompletedIsLostWithoutHypothesis` is a run without it that queues a completed
job again. With it a completed row is left by a user's write alone; that write is an
undo if the row still passes the check made for it, and `StaleRetryRevives` shows what a
stale retry does.

**Sessions.** At every moment of every interleaving the active sessions exceed the limit
by no more than the calls that have written since the latest read of any finished call.
A call whose database fails after its write counts among them, and
`DeadCallsExceedLimit` reaches the bound with any number of them; they stop counting
once a call that read later has finished. Serial histories are LRU up to the 60 s
debounce, revoke nobody while there is room, and revocation is final there;
`RaceReactivates` shows it is not under a race, and `PurgeForgets` not beyond the
retention job.

**Chart segments.** Rejoining the segments gives back the series; the signed area is
kept; and the segments' unsigned areas add up to the integral of |f| exactly when no run
of zeros separates opposite signs.

**Tenant patches.** Winning patches form a chain in version order, each on the row it
read, and the row is their fold; a patch loses exactly when it was overtaken. A stored
version of 0 counts as missing, so no patch of such a row ever matches. The audit trail is
less certain: once all requests have finished it holds every version's record if and only
if no winning request died while recording, had its insert fail, or sent an operation id
that was on record. The last two still answer ok: `FailedInsertIsSilent`,
`ReusedIdIsSilent`.

**Prompts.** The resolver never answers with a draft, an archived version or another
key's text, whatever publishers do. With one publisher per key, crashes included, the
definition row names the last finished publish and, until the next one starts writing,
that version alone is published. Two publishers at once can hide the prompt.

**Offline queue.** A batch whose push returned or raised is on the server or a line of
the file, counting copies, in every run exactly when three things hold. The base URL
names a host, since a push checks it outside its `try`. The host never redirects, since
the client does not follow a redirect and the agent takes every status below 400 for
success. And appends to the file work. Without them `EveryBatchAccounted` still says
where each batch went. Delivery is at least once: a flush that dies late sends its lines
again (`DeadFlushSendsTwice`).

**Templates.** Scanning and printing are inverse in both directions, with the scanner's
reading the only leftmost one. A text depends on no variable outside a set if and only
if every placeholder found is in it. If every payload value is text, acceptance means
every required variable is shown; otherwise one may be shown nowhere, since the
validator also searches the printed form of other values, which are never rendered.

**Lockout, quota, dunning.** The gate refuses exactly when five failures since the last
right code lie within fifteen minutes, whatever was pruned, and the failures are exactly
the attempts it let in without an acceptable code. A finite quota is exceeded by at most
the chats waiting at once less one, and that is reached, if and only if the counter can
always be read: a failed read counts as zero. Admission and notices take their limits
from different plans, the one in effect and the stored one. The notices are exact if and
only if chats come one at a time and both limits put each notice at the same count,
which on the plan table means the same limit; `CancelledGetsNoNotice` uses up a quota of
10 in silence while the stored plan allows 400. Days are 24 hours each from the start of
the episode. A reminder is never early and goes out at most once, plus once for each
cycle that mailed it, died before its event, and whose log row is missing or unreadable
later; that is reached. With a log that works it goes out at most once whatever dies.
The tenant is downgraded by the first complete cycle from day 14 on. The downgrade
notice goes out only after a cycle that died on day 14's reminder, and only when the
second look at the log fails: the reminder loop has otherwise dealt with day 14.

**Dates.** Day numbers and dates are inverse and agree with counting dates one by one.
`toISODate` undoes `parseDate` exactly on dates of four-digit years (of strings in ISO
shape), and `parseDate` undoes `toISODate` exactly from the year 100 on. A period of N
days covers exactly min(N, span) dates when there is data. Without data it reaches one
day further back, and reads the clock twice: it is right exactly when both readings fall
in one month.

Where the repository's comments and its code differ, the model follows the code: the
quota mail is documented as once per threshold per month, but a delivery in the last 31
days holds it back; and the downgrade notice is written as part of day 14.

## Model

| member | source | states |
|---|---|---|
| ImportJobs.ImportWorker.ClaimJob | backend/app/workers/import_worker.py:64-88 | None exactly when every queued row is locked by others; else the queued, unlocked row created first becomes processing under this worker with a fresh heartbeat and nothing else of it changes; its retry count is the claim's snapshot |
| ImportJobs.ImportWorker.UpdateHeartbeat | backend/app/workers/import_worker.py:90-93 | every other row stays, and the row keeps its status, owner and retry count; from then on it is stale exactly when more than ten minutes have passed, it is processing and it has a retry left |
| ImportJobs.ImportWorker.CompleteJob | backend/app/workers/import_worker.py:95-112 | whatever the row was, it ends completed or failed with the rows, message and time given, no owner and its retry count, never stale and never claimable again as it stands; every other row stays |
| ImportJobs.ImportWorker.RetryJob | backend/app/workers/import_worker.py:114-140 | the snapshot decides: below 3 the row is queued again with snapshot + 1, the error and no heartbeat, else it is failed as a dead letter with its retry count; every other row stays |
| ImportJobs.ImportWorker.CleanupStaleJobs | backend/app/workers/import_worker.py:282-302 | reports exactly the processing rows below 3 retries whose heartbeat is more than 600 s old; each of them is queued, unowned, with one retry more; every other row stays, and no row is stale afterwards |
| ImportJobs.ImportWorker.HeartbeatLoop | backend/app/workers/import_worker.py:207-214 | the row carries the k-th beat, k * 10 s after the start, and nothing else of it changes; k beats fit before the cancel, within 300 s and before the first write that raises, and one more would not |
| ImportJobs.ImportWorker.ProcessJob | backend/app/workers/import_worker.py:216-280 | a cancelled row is skipped untouched; otherwise beats, as many as work, then the one outcome write: completed with its rows, queued again below 3 retries, or failed |
| ImportJobs.ImportWorker.RunOnce | backend/app/workers/import_worker.py:304-316 | claims nothing exactly when no row is queued after the sweep; else sweep, claim of the oldest, and the whole attempt |
| ImportJobs.ImportEndpoints.CancelImport | backend/app/api/v1/data.py:758-790 | a queued or processing job becomes cancelled and loses its worker; an unknown one is not found, any other is refused, and then nothing changes |
| ImportJobs.ImportEndpoints.RetryImport | backend/app/api/v1/data.py:794-838 | a failed or cancelled job with a stored file is as it was submitted, save for its retry count; any other is refused |
| ImportJobs.ImportEndpoints.UndoImport | backend/app/api/v1/data.py:289-328 | any job not yet deleted is marked deleted; a second undo is refused |
| ImportJobs.ClaimTargetExists | backend/app/workers/import_worker.py:71-77 | an unlocked queued row means there is an oldest one to claim |
| ImportQueue.PatchKeeps | backend/app/workers/import_worker.py:95-136 | each SET list keeps retry count within 0..3 and a worker only on processing or deleted rows, given a snapshot in bounds |
| ImportQueue.CountsBounded | backend/app/api/v1/data.py:775-838 | in every run, stale writers and user operations included: 0 <= retry_count <= 3, snapshots within 0..3, a worker id only on processing or deleted rows, a heartbeat on every processing row |
| ImportQueue.LeaseTheorem | backend/app/workers/import_worker.py:207-214 | a timing, with heartbeats that always work or may fail, is safe if and only if in every punctual run each live worker still owns its row and cleanup would not take it |
| ImportQueue.UnsafeLosesLease | backend/app/workers/import_worker.py:282-302 | for every unsafe timing, a punctual run in which a live worker's row is stale; with failing heartbeats, that is any attempt longer than 600 s |
| ImportQueue.LeaseInvOfRun | backend/app/workers/import_worker.py:207-214 | what the row's heartbeat is worth at each stage of an attempt, in every punctual run |
| ImportQueue.RowKept | backend/app/workers/import_worker.py:90-93 | under the lease nobody but its own worker does more to a live attempt's row than refresh its heartbeat |
| ImportQueue.OneLiveWorker | backend/app/workers/import_worker.py:64-88 | two live workers on one job are the same worker |
| ImportQueue.OutcomeByOwner | backend/app/workers/import_worker.py:95-140 | in a leased run a row leaves processing by its owner's own outcome, or by cleanup with no live worker left; it leaves completed by a user's write alone, and by undo alone if the row still passes that request's check |
| ImportQueue.StaleRetryRevives | backend/app/api/v1/data.py:794-838 | a second retry checked before the first one was written queues a completed job again, in a run that keeps the lease |
| ImportQueue.RankStep | backend/app/workers/import_worker.py:114-140 | every status change lowers (3 - retry_count, status), but a user's write may raise it by up to three |
| ImportQueue.AttemptsTerminate | backend/app/workers/import_worker.py:282-302 | a job is claimed at most max_retries + 1 times plus once per user retry, and changes status at most 15 times plus four times per user write |
| ImportQueue.NotifiesFailures | backend/app/workers/import_worker.py:114-127 | an attempt stays on to notify the user exactly when its outcome leaves the row failed |
| ImportQueue.StuckExactly | backend/app/workers/import_worker.py:64-77 | no idle worker or later cleanup will pick a job up exactly when its status is terminal or it is processing with retry count 3 |
| ImportQueue.CrashIsRecovered | backend/app/workers/import_worker.py:282-302 | a dead worker's row, with a retry left, is queued again, with one retry more and open to any claim, by a cleanup more than 600 s after its last heartbeat |
| ImportQueue.CancelThenRetryRunsTwice | backend/app/api/v1/data.py:758-838 | cancel then retry of a processing job, each alone, leaves two live workers on it |
| ImportQueue.CompletedIsLostWithoutHypothesis | backend/app/workers/import_worker.py:95-136 | without the hypothesis on user writes a stale worker's outcome puts a completed job back in the queue |
| ImportQueue.RunOnceIsASoloRun | backend/app/workers/import_worker.py:304-316 | what RunOnce is proved to do is a run of the queue by that worker alone, which makes each heartbeat the moment it is due and meets every timing the attempt is short enough for |
| ImportQueue.OwnRunIsPunctual | backend/app/workers/import_worker.py:207-316 | such a run, with no other worker about, continues a punctual run, so that the lease theorem holds of it |
| Sessions.SessionTracker.RecordSession | backend/app/core/session_tracker.py:18-97 | refuses exactly a revoked session, skips exactly inside 60 s of the stored time, else writes the row and leaves as many active as were so with it or the limit, whichever is less, nobody revoked in the first case; session ids stay unique |
| Sessions.SessionTracker.SelectActive | backend/app/core/session_tracker.py:76-83 | every active row once, oldest last_seen first |
| Sessions.SessionTracker.EvictOldest | backend/app/core/session_tracker.py:84-89 | as many stay active as were so before, or the limit if that is less; while there is room nothing changes; the rows revoked get the time, nothing else changes, and none is younger than a row that stays |
| Sessions.PrefixIsOldest | backend/app/core/session_tracker.py:84-86 | the first entries of the ordered query are what eviction must take, and leave at most the limit |
| SessionHistory.HistoryHolds | backend/app/core/session_tracker.py:43-89 | over serial histories every active row's stored time is less than 60 s behind its session's true last use |
| SessionHistory.AtMostLimitActive | backend/app/core/session_tracker.py:84-89 | after any serial history at most the limit is active |
| SessionHistory.EvictsOnlyBeyondLimit | backend/app/core/session_tracker.py:61-89 | over serial histories a recorded session leaves min(limit, active rows with it) active and revokes nobody while that is not the limit exceeded; any other call changes nothing |
| SessionHistory.EvictsNearlyOldest | backend/app/core/session_tracker.py:50-59 | an evicted session was last used less than 60 s later than every session kept, and is not the one just recorded |
| SessionHistory.RecordedStays | backend/app/core/session_tracker.py:70-89 | with a positive limit the session just recorded is active afterwards |
| SessionHistory.RevokedStaysRevoked | backend/app/core/session_tracker.py:43-48 | in a serial history a revoked row never changes again |
| SessionHistory.EvictedIsRefused | backend/app/core/session_tracker.py:43-48 | every later call with an evicted session's id is refused |
| SessionRaces.InvOfRun | backend/app/core/session_tracker.py:35-89 | in every interleaving, once a call has revoked what it read, only calls that wrote after its read can exceed the limit, dead ones included |
| SessionRaces.ConcurrentBound | backend/app/core/session_tracker.py:35-97 | at every moment the active sessions exceed the limit by no more than the calls, under way or dead, that have written since the latest read of any finished call |
| SessionRaces.SettledHolds | backend/app/core/session_tracker.py:76-97 | so the limit holds as soon as each of those wrote before such a read: a dead call stops counting once a later reader has finished |
| SessionRaces.CallIsASoloRun | backend/app/core/session_tracker.py:18-97 | the relation proved of RecordSession is what the statements do with nobody interleaving |
| SessionRaces.DeadCallsExceedLimit | backend/app/core/session_tracker.py:96-97 | any number k of calls for new sessions whose read fails after the write, silently, leave limit + k active sessions: the bound is reached for every k |
| SessionRaces.RaceReactivates | backend/app/core/session_tracker.py:61-71 | a write whose lookup came before a revocation makes the session active again |
| SessionRaces.PurgeForgets | backend/app/workers/retention_cleanup.py:154-158 | the retention job deletes a revoked row thirty days after its last use, and then a call with its session id is let in again |
| SessionRaces.UniqueHolds | backend/app/core/session_tracker.py:61-74 | session ids stay unique in every interleaving where no insert gets the row id of a deleted row that a call still holds |
| Segments.SplitProfitLossSegments | frontend/src/lib/profit-loss-segments.ts:59-123 | the loop computes the cut of the series at its strict sign flips, from the initial sign |
| Segments.InitialIsFirstSign | frontend/src/lib/profit-loss-segments.ts:18-35 | the initial sign is that of the first number that is not zero, and positive when there is none |
| Segments.FlatIsOneProfit | frontend/src/lib/profit-loss-segments.ts:18-122 | a series without any sign is one segment, all of it, and counts as profit |
| Segments.CutRejoins | frontend/src/lib/profit-loss-segments.ts:74-122 | dropping the crossings and concatenating the segments gives back the input |
| Segments.SegmentCount | frontend/src/lib/profit-loss-segments.ts:91-107 | one segment more than there are strict sign flips between neighbours |
| Segments.CrossingOnLine | frontend/src/lib/profit-loss-segments.ts:37-56 | at increasing times the inserted point lies strictly between its neighbours, on their line, at zero, with the other columns of the first |
| Segments.CutJoins | frontend/src/lib/profit-loss-segments.ts:98-105 | neighbouring segments share their joint, which is the crossing of some flip of the series |
| Segments.FlagIsLastSign | frontend/src/lib/profit-loss-segments.ts:105-112 | each flag is the sign of its segment's last non-zero value |
| SegmentSigns.UniformIffNoZeroRun | frontend/src/lib/profit-loss-segments.ts:91-97 | every segment stays on one side of zero if and only if no zero run separates opposite signs |
| SegmentSigns.StartsOpposite | frontend/src/lib/profit-loss-segments.ts:98-106 | behind a crossing a segment starts on the side its predecessor's flag denies |
| SegmentSigns.AlternateExactly | frontend/src/lib/profit-loss-segments.ts:105-112 | flags alternate if and only if every segment but the first ends on the side it starts on |
| SegmentSigns.FlagsAlternate | frontend/src/lib/profit-loss-segments.ts:105-112 | with no zero run between opposite signs, flags alternate |
| SegmentAreas.CrossingSplitsArea | frontend/src/lib/profit-loss-segments.ts:44-49 | the trapezoid of a flip is the sum of its two parts |
| SegmentAreas.CrossingSplitsAbs | frontend/src/lib/profit-loss-segments.ts:44-49 | so is the integral of the absolute value |
| SegmentAreas.AreaPreserved | frontend/src/lib/profit-loss-segments.ts:82-120 | the segments' signed areas sum to the series' area, at any times |
| SegmentAreas.AbsAreaPreserved | frontend/src/lib/profit-loss-segments.ts:82-120 | at increasing times so do the integrals of the absolute value |
| SegmentAreas.UnsignedIffUniform | frontend/src/lib/profit-loss-segments.ts:82-120 | a segment's area without sign is all of the integral of its absolute value exactly when it stays on one side |
| SegmentAreas.UnsignedIsAbsArea | frontend/src/lib/profit-loss-segments.ts:82-120 | the segments' unsigned areas sum to the integral of the absolute value if and only if no zero run separates opposite signs, and never exceed it |
| TenantPatch.TenantStore.CompareAndSet | backend/app/api/superadmin/tenants.py:432-441 | on a match each named field takes its new value, every other field stays, the version goes up by one, and the same snapshot cannot match again |
| TenantPatch.TenantStore.PatchTenant | backend/app/api/superadmin/tenants.py:404-463 | another version than the expected one is a conflict, an empty patch has nothing to update, a dry run is answered as such, a stored version of 0 is a conflict, in that order and with nothing changed; else the patch wins. A win adds its audit record exactly when the insert works and its operation id is not on record, and is answered the same either way |
| TenantPatch.TenantStore.RecordOperation | backend/app/domain/superadmin/audit.py:31-84 | one record more, and its operation id on record, unless that id is on record already or the insert fails, which is swallowed |
| TenantPatch.MatchIffUnchanged | backend/app/api/superadmin/tenants.py:432-447 | the version matches exactly when the row is still the one read and its version is not 0 |
| TenantPatch.PatchesSerialise | backend/app/api/superadmin/tenants.py:411-448 | in every interleaving each win applies to exactly the row the previous one left, and the row is the fold of the wins in version order |
| TenantPatch.VersionDeterminesRow | backend/app/api/superadmin/tenants.py:432-441 | two rows that were ever current and share a version are the same row |
| TenantPatch.SnapshotWasCurrent | backend/app/api/superadmin/tenants.py:411 | what a request holds is the row its version names in the history |
| TenantPatch.LosesIffOvertaken | backend/app/api/superadmin/tenants.py:442-447 | a request loses exactly when the row has changed since its read, or its version is 0 |
| TenantPatch.WinsWereAsked | backend/app/api/superadmin/tenants.py:411-430 | in every run no win comes from a dry run or an empty patch, and a win of a request that expected a version replaced that version |
| TenantPatch.PatchIsASoloRun | backend/app/api/superadmin/tenants.py:404-447 | what PatchTenant is proved to do up to its compare-and-set is what the steps do with nobody interleaving |
| TenantPatch.RecordIsASoloRun | backend/app/domain/superadmin/audit.py:31-84 | what RecordOperation is proved to do is what the lookup and the insert do with nobody interleaving |
| TenantPatch.AuditedOnce | backend/app/api/superadmin/tenants.py:450-462 | no version is recorded twice, and every record is a win |
| TenantPatch.CompleteIffNoSkip | backend/app/domain/superadmin/audit.py:38-84 | once all requests have finished, every win is recorded if and only if no winning request died while recording, had its insert fail, or found its operation id on record |
| TenantPatch.AuditIsUnbroken | backend/app/api/superadmin/tenants.py:450-462 | each version's win starts from the row the previous one left; once all requests have finished and none skipped its record, that win is recorded |
| TenantPatch.FailedInsertIsSilent | backend/app/domain/superadmin/audit.py:72-84 | one patch of any row, answered and with nobody dying, whose insert raises: won, and no record |
| TenantPatch.ReusedIdIsSilent | backend/app/domain/superadmin/audit.py:38-53 | the same when its operation id was on record from any other action |
| Prompts.PromptStore.CreatePromptVersion | backend/app/api/superadmin/ai_control.py:96-101 | a new draft changes neither the published versions of any key nor what any key resolves to |
| Prompts.PromptStore.PublishPrompt | backend/app/api/superadmin/ai_control.py:114-137 | for a version of the key (else 404 and no change): it alone is published, the definition row names it, former published versions of the key are archived, all else stays |
| Prompts.PromptStore.ResolvePublishedPrompt | backend/app/api/superadmin/control_plane.py:167-180 | falls back exactly when the definition row names no published version of that key with text in it; else that version's content |
| Prompts.ConfinedHolds | backend/app/api/superadmin/ai_control.py:118-122 | in every run definition rows, publishers and readers only name versions of their own key |
| Prompts.ResolverNeverLeaks | backend/app/api/superadmin/control_plane.py:167-180 | however publishers race or die, the answer is the fallback or the content of a version of the asked key published at that moment |
| Prompts.KeyHolds | backend/app/api/superadmin/ai_control.py:120-122 | with one publisher per key, its stage tells which versions are published: at most one, none, or its own |
| Prompts.PublishTakesEffect | backend/app/api/superadmin/ai_control.py:114-137 | the definition row names the last finished publish, and until the next one writes, that version alone is published, crashes included |
| Prompts.SettledResolves | backend/app/api/superadmin/control_plane.py:167-180 | then resolving gives exactly its content, or the fallback if that is blank |
| Prompts.RacingPublishersHidePrompt | backend/app/api/superadmin/ai_control.py:120-122 | two publishers at once can both finish and leave the definition row on an archived version |
| Prompts.PublishIsASoloRun | backend/app/api/superadmin/ai_control.py:118-122 | what PublishPrompt is proved to do is what the steps do with nobody interleaving |
| Prompts.ResolveIsASoloRun | backend/app/api/superadmin/control_plane.py:167-180 | the two reads, with nobody interleaving, change nothing and fetch what ResolvePublishedPrompt is proved to return |
| PushQueue.PushClient.Enqueue | akara-connect/agent/push_client.py:81-83 | an append that works adds the body as one more line at the end of a queue file the agent wrote; one that raises changes nothing |
| PushQueue.PushClient.PushVouchers | akara-connect/agent/push_client.py:56-79 | returns only on a status below 400 with JSON, a redirect included, and then the file stays; otherwise the body is the new last line of the queue, twice on an error status, as far as the appends work; with no host nothing is sent or queued |
| PushQueue.PushClient.FlushQueue | akara-connect/agent/push_client.py:85-114 | the file is rewritten with exactly the lines that are not blank and got no status below 400; the count is of the others |
| PushQueue.Scheduler.RunOnce | akara-connect/agent/scheduler.py:13-24 | flush, then fetch, then push; ok exactly when fetch and push succeed, with the status fields to match |
| PushQueue.WrittenSplits | akara-connect/agent/push_client.py:88-113 | writing break-free lines and splitting the file gives them back |
| PushQueue.SplitAtBreak | akara-connect/agent/push_client.py:88 | every break ends a line, and a carriage return takes a line feed behind it along |
| PushQueue.FlushLeavesFailed | akara-connect/agent/push_client.py:91-113 | after a flush the file reads back as the lines kept |
| PushQueue.KeptInOrder | akara-connect/agent/push_client.py:93-112 | every failed line is kept, at the place that counts the lines kept before it |
| PushQueue.OnlyFailedKept | akara-connect/agent/push_client.py:93-112 | and every line kept is such a failed line |
| PushQueue.SentKeptAndBlank | akara-connect/agent/push_client.py:91-114 | the count returned is of the lines that got a status below 400, and these, the lines left in the file and the blank ones are all there were |
| PushRuns.EveryBatchAccounted | akara-connect/agent/push_client.py:56-114 | in every run, whatever the answers, the disk and the crashes, each batch is delivered, queued or dropped by a redirect, a failed append or a missing host, as often as its push ended |
| PushRuns.SafeAfter | akara-connect/agent/push_client.py:56-114 | with a host that never redirects and a disk that works, settled batches are delivered or queued, counting copies |
| PushRuns.NothingIsLost | akara-connect/agent/push_client.py:50-79 | settled batches are delivered or queued, counting copies, in every run if and only if the base URL names a host, the host never redirects and appends work |
| PushRuns.RedirectDropsQueued | akara-connect/agent/push_client.py:73-110 | a batch whose push raised on a redirect and was queued is dropped by the next flush that is redirected |
| PushRuns.NoHostKeepsNothing | akara-connect/agent/push_client.py:50-54 | with no host nothing is ever sent or queued |
| PushRuns.DrainDelivers | akara-connect/agent/push_client.py:85-114 | under the same three conditions a flush that passes throughout empties the queue, and then every settled batch has been delivered, counting copies |
| PushRuns.DeadFlushSendsTwice | akara-connect/agent/push_client.py:91-114 | a flush that dies before it rewrites the file makes the next one send its lines again, so that a batch pushed once is delivered twice |
| PushRuns.NothingIsInvented | akara-connect/agent/push_client.py:56-114 | what is delivered or queued was pushed |
| Placeholders.MatchIsHole | backend/app/api/superadmin/control_plane.py:136 | what the scanner matches at a position is a placeholder of the pattern |
| Placeholders.HoleIsMatch | backend/app/api/superadmin/control_plane.py:136 | where a placeholder starts the scanner matches it, with that length and name and no other |
| Placeholders.ScanPrints | backend/app/api/superadmin/templates_control.py:78-82 | concatenating the tokens of a text gives the text |
| Placeholders.ScanIsLeftmost | backend/app/api/superadmin/control_plane.py:142 | every hole is a placeholder and no literal starts one |
| Placeholders.PrintScans | backend/app/api/superadmin/control_plane.py:142 | no other reading is leftmost: scanning the print of such tokens gives them back |
| Placeholders.PlainTextUnchanged | backend/app/api/superadmin/templates_control.py:78-82 | rendering leaves a text without placeholders alone |
| Placeholders.RenderFirst | backend/app/api/superadmin/templates_control.py:78-82 | rendering replaces a leading placeholder by its value, or by nothing without one, keeps a leading character where none starts, and goes on behind |
| Placeholders.DependsOnlyOnAllowed | backend/app/api/superadmin/templates_control.py:78-82 | samples agreeing on a set of variables always render a text alike if and only if all its placeholders are in the set |
| Placeholders.RenderingTwiceDiffers | backend/app/api/superadmin/templates_control.py:78-82 | rendering is not idempotent: a value can complete a placeholder around it |
| Templates.ValidateTemplatePayload | backend/app/api/superadmin/control_plane.py:139-149 | a complaint naming exactly the placeholders outside the key's variables, if there are any, and one exactly for a text that spells an opening script tag or a script URL in any mix of cases |
| Templates.UnsafeExactly | backend/app/api/superadmin/control_plane.py:147 | the script check hits exactly the texts with `<script` or `javascript:` in them, each letter in either case |
| Templates.CollectComplaints | backend/app/api/superadmin/templates_control.py:66-73 | the complaints of each value in turn, then unknown and missing variables over all of them |
| Templates.Validate | backend/app/api/superadmin/templates_control.py:58-75 | the verdicts in the order of the checks; accepted only with the registered channel, the approval it asks for, no script and no foreign placeholder in any value, and every required variable in some value, and exactly when nothing is left to complain about |
| Templates.NoComplaints | backend/app/api/superadmin/templates_control.py:62-73 | no complaint exactly when every value is clean and every required variable is found |
| Templates.AcceptedShowsOnlyItsVariables | backend/app/api/superadmin/templates_control.py:58-82 | two samples agreeing on the key's variables render an accepted payload identically |
| Templates.ShownIffInText | backend/app/api/superadmin/templates_control.py:78-82 | a variable changes the rendering exactly when some text value holds its placeholder |
| Templates.RequiredAreShown | backend/app/api/superadmin/templates_control.py:68-72 | with text values only, every required variable of an accepted payload is shown |
| Templates.RequiredMayBeHidden | backend/app/api/superadmin/templates_control.py:68-80 | otherwise a required variable can be accepted and shown nowhere: a list holding its placeholder as a string |
| Lockout.TotpGuard.RemainingAttempts | backend/app/core/totp.py:93-98 | prunes the user's stamps to the last fifteen minutes and returns five less their number, never below zero |
| Lockout.PrunedExactly | backend/app/core/totp.py:93-98 | pruning keeps each stamp less than 900 s old as often as it is there, in order, and no other |
| Lockout.TotpGuard.RecordTotpFailure | backend/app/core/totp.py:101-103 | one more stamp for the user, nobody else's touched |
| Lockout.TotpGuard.ClearTotpFailures | backend/app/core/totp.py:106-107 | the user's stamps are gone, nobody else's touched |
| Lockout.TotpGuard.VerifyTotp | backend/app/core/totp.py:110-136 | locked out exactly when five stamps count; else true for a right code, or for a missing secret where none is required, and false for a wrong code, no code or a required secret that is missing; only a right code clears the stamps |
| Lockout.TotpGuard.StartSudo | backend/app/api/superadmin/sudo.py:77-85 | granted exactly to a right code, or a missing secret where none is required, that the gate lets in; a wrong code, no code or a required secret that is missing is rejected, its stamp recorded and the attempts left told; a lockout records nothing |
| Lockout.StoredIsPrunedHistory | backend/app/core/totp.py:93-107 | the stored list is the full history since the last right code, pruned, and gives the same count at any later time |
| Lockout.GateCountsHistory | backend/app/core/totp.py:93-98 | the gate counts what the unpruned history would count |
| Lockout.FailuresAreWrongCodes | backend/app/core/totp.py:93-136 | the failures on record are, over any serial history, the attempts without an acceptable code that the gate let in since the last right one, told from the codes and times alone, with no stored list and no pruning |
| Lockout.LockedExactly | backend/app/core/totp.py:110-116 | the gate refuses exactly when five failures since the last right code lie in the last fifteen minutes |
| Lockout.SixFailuresSpanTheWindow | backend/app/api/superadmin/sudo.py:77-85 | any six failures with no right code between them span fifteen minutes |
| Quota.CopilotQuota.MaybeNotifyThreshold | backend/app/core/plan_guard.py:276-351 | a notice for each threshold of its own limit the increase crosses, in order, unless a delivery of it is on record or nobody can be told; each notice is put on record |
| Quota.CopilotQuota.Chat | backend/app/api/v1/copilot.py:427-436 | admitted exactly below the limit, or without one, by the count as read; the counter moves only for an admitted and counted chat, and then each of the 80% and 90% notices goes out exactly when this count crosses it, no delivery is on record and somebody can be told; with a readable counter the limit is never passed |
| Quota.ChatIsASoloRun | backend/app/api/v1/copilot.py:427-436 | what Chat is proved to do is what the steps do with nobody interleaving |
| Quota.NeverFarBeyond | backend/app/core/plan_guard.py:217-237 | with a readable counter and at most C chats between check and count, count plus waiting chats never exceed limit + C - 1 |
| Quota.BoundIsExact | backend/app/core/plan_guard.py:108-139 | for every positive limit and C a month can end at limit + C - 1, and never ends beyond it if and only if the counter can always be read |
| Quota.ExactIffAlone | backend/app/core/plan_guard.py:166-290 | for every positive limit in effect, each notice is sent once when its share of that limit is reached and else not, in all runs with up to C chats at once, if and only if C is 0, or C is 1 and the limit in effect and that of the stored plan put each notice not on record at the same count |
| Quota.PlansAgree | backend/app/core/plan_guard.py:166-185 | on the limits of the plan table, 10, 400 and 800, that is so exactly when both limits are the same |
| Quota.CancelledGetsNoNotice | backend/app/core/plan_guard.py:276-290 | a tenant held to 10 chats while its stored plan has 400 uses them up, one at a time, with no notice |
| Quota.NoticedOnce | backend/app/core/plan_guard.py:276-351 | at every step of a run with one chat at a time, what has been mailed and put on record for each threshold of the stored plan's limit |
| Quota.RepeatsNotice | backend/app/core/plan_guard.py:293-310 | where the count for the 80% notice lies within the limit in effect, two chats at once can send it twice, both looking for a delivery before either sends |
| Quota.MissesNotice | backend/app/api/v1/copilot.py:342-354 | with both limits the same and above one, two chats at once can carry the count past 90% with no notice of it |
| Quota.UnreadableMissesNotices | backend/app/core/plan_guard.py:128-139 | a counter that cannot be read lets a limit be used up, one chat at a time, with no notice, unless the stored plan's limit is 1 |
| Dunning.DunningWorker.Remind | backend/app/workers/dunning.py:101-109 | an offset that is due and not seen to be sent, the log lookup failing or not, is logged if the insert works, mailed and given its event; otherwise nothing happens |
| Dunning.DunningWorker.RunTenant | backend/app/workers/dunning.py:100-122 | the three offsets in order, then the downgrade at day 14 and its notice if a second look at the log does not show day 14 |
| Dunning.DunningWorker.RunDunningCycle | backend/app/workers/dunning.py:82-122 | each tenant that is past due, with a start and an email, gets the reminder for 3, 7 or 14 days exactly when so many times 24 hours have gone by and it is not seen to be sent, and is on the free plan exactly if it was or 14 times 24 hours have gone by; each with its own failures of the log, and no other book changes |
| Dunning.RestSteps | backend/app/workers/dunning.py:44-109 | a cycle cut off anywhere makes, for each offset due by what its lookups show, the first so many of its own three writes |
| Dunning.CycleMails | backend/app/workers/dunning.py:20-24 | a cycle mails an offset at most once, only that many times 24 hours or more after the start, and if it is not cut off exactly then, unless it finds it sent |
| Dunning.NoOtherMails | backend/app/workers/dunning.py:16-109 | no reminder goes out for any other offset than 3, 7 and 14 |
| Dunning.MailedAtMostOnce | backend/app/workers/dunning.py:20-109 | over any episode no offset is mailed before so many times 24 hours from the start, and each at most once, plus once for each cycle that mailed it, died before its event and whose log row a later cycle finds missing or unreadable; an event of an earlier episode silences it |
| Dunning.WorkingLogMailsOnce | backend/app/workers/dunning.py:44-109 | where the log's inserts and lookups work for an offset, it is mailed at most once, whatever dies |
| Dunning.SlipsMailAgain | backend/app/workers/dunning.py:44-109 | that bound is reached for every number of such cycles, whether it is the inserts or only the lookups that fail |
| Dunning.MailedExactly | backend/app/workers/dunning.py:20-109 | with no crash, however the log fails, after a cycle with an email exactly the offsets whose days, of 24 hours each, have gone by since the start have been mailed, once each, save the silenced ones |
| Dunning.DowngradedExactly | backend/app/workers/dunning.py:111-122 | downgraded only after a cycle with an email 14 times 24 hours or more after the start, with no crash exactly then, and with at most one notice |
| Dunning.DowngradeWrites | backend/app/workers/dunning.py:111-121 | the downgrade, cut off anywhere, makes the first so many of its four writes: the plan, the log row, the notice and the event of day 14 |
| Dunning.NoticeExactly | backend/app/workers/dunning.py:111-121 | a complete cycle that downgrades sends the notice exactly when it finds day 14 logged without an event and its second look at the log fails after the first one worked |
| Calendar.NextYearStart | frontend/src/lib/dateRange.ts:13-16 | the year-start formula grows by 366 days over leap years and 365 over others |
| Calendar.MonthLengths | frontend/src/lib/dateRange.ts:36-51 | months have 31 and 30 days in turn, anew from August, and February 28 or, in a leap year, 29 |
| Calendar.CalendarRepeats | frontend/src/lib/dateRange.ts:13-16 | every date comes again 400 years later, 20,871 weeks on |
| Calendar.CivilDate | frontend/src/lib/dateRange.ts:6-11 | finds the one date a day number stands for |
| Calendar.DateOfNumber | frontend/src/lib/dateRange.ts:13-16 | the date of a valid date's day number is that date |
| Calendar.NumbersFollowDates | frontend/src/lib/dateRange.ts:53 | day numbers are ordered as dates are: year, month, day |
| Calendar.Epoch | frontend/src/lib/dateRange.ts:57-58 | day 0 is 1 January 1970, from which the clock counts |
| Calendar.CountingDays | frontend/src/lib/dateRange.ts:36-51 | adding k to a day number is counting on k dates, over month ends, year ends and leap days |
| DateRange.LocalDate.SetDate | frontend/src/lib/dateRange.ts:36-51 | the dt-th day counted from the first of the date's own month, wherever that falls |
| DateRange.LocalDate.ToISODate | frontend/src/lib/dateRange.ts:6-11 | the unpadded year, two-digit month and day, or the text of an invalid date |
| DateRange.ParseUndoesPrint | frontend/src/lib/dateRange.ts:6-16 | parsing what was printed gives the date back if and only if its year is at least 100 |
| DateRange.LastDate | frontend/src/lib/dateRange.ts:13-16 | the last date the dashboard can hold is 13 September 275760 |
| DateRange.PrintUndoesParse | frontend/src/lib/dateRange.ts:6-16 | an ISO date of a four-digit year parses to the date it writes out and prints as itself |
| DateRange.SurvivesExactly | frontend/src/lib/dateRange.ts:6-16 | of the strings in ISO shape exactly those dates survive parsing and printing |
| DateRange.GetDateRangeForPeriod | frontend/src/lib/dateRange.ts:22-79 | the bounds themselves for all; else the strings of the window ending with the data, held to its start; without bounds those of the window from the clock |
| DateRange.PeriodCoversItsDays | frontend/src/lib/dateRange.ts:34-54 | for ISO bounds in order 7d, 90d and any other period give strings that read back as the ends of exactly min(7, 90 or 30, span) consecutive dates, the last one the given end |
| DateRange.YearToDateCovers | frontend/src/lib/dateRange.ts:46-48 | the year-to-date range's strings read back as the data's days in the year of its last day |
| DateRange.ClockWindow | frontend/src/lib/dateRange.ts:57-78 | without bounds the window starts N days back, one day further than with them, exactly when both clock readings fall in one month |
| DateRange.TenYearsBack | frontend/src/lib/dateRange.ts:72-74 | without bounds "all" starts on the same date ten years before, or on 1 March for a 29 February that year lacks |
| IndianTime.DaysTile | backend/app/core/time_utils.py:58-70 | two instants share an IST day exactly when the second lies in the 24 hours from the first's start of day |
| IndianTime.SharedKey | backend/app/core/time_utils.py:73-80 | two instants share a month key exactly when the second lies between the first's start of month and the next |
| IndianTime.KeyIsStart | backend/app/core/time_utils.py:47-80 | the key is the date of the start of the month, always a first, and the two tell the same months apart |
| IndianTime.MonthsTile | backend/app/core/time_utils.py:47-80 | every instant is in its month's interval, which ends where the next begins under another key |
| IndianTime.ResetsAtHalfPastSix | backend/app/core/time_utils.py:47-70 | the counters' months and days start at 18:30 UTC on the day before, for a month the last one of the month before |
| IndianTime.LastCompletedWeek | backend/app/core/time_utils.py:88-94 | a Monday and the Sunday after it, ended one to seven days before the reference |
| IndianTime.WeeksOfTheCalendar | backend/app/core/time_utils.py:88-94 | the block's Monday is a whole number of weeks from Monday, 1 January 2024 |
| IndianTime.OnlySuchWeek | backend/app/core/time_utils.py:88-94 | no other block is like that |
| IndianTime.WeeksTile | backend/app/core/time_utils.py:88-94 | as days go by the block stays or moves to the one right after |
| IndianTime.NoDaySkipped | backend/app/core/time_utils.py:88-94 | debriefs at least every seven days leave out no day between the first block and the last |
| IndianTime.OneBlockADay | backend/app/core/time_utils.py:88-94 | no day is in two different blocks |

## Left out

- ImportQueue: a write that is applied while its response is lost, so that the worker both completes and retries, and superadmin row actions on `import_jobs`, which bypass the protocol.
- ImportQueue: `rows_skipped`, the tenant and file columns, the size estimate and the plan's import quotas; the endpoints' permission checks; the deletion of imported sales rows by undo.
- ImportJobs.ImportWorker.ProcessJob: one outcome and one finishing time stand for the download, parsing and import steps.
- SessionRaces.ConcurrentBound: a lookup, a write or the read of active rows is one statement; the limit is assumed to hold at the start of a run.
- Sessions: device hint and address columns, an unreadable `last_seen_at` (treated by the source as missing), and `sign_out`, which does not touch the table.
- Segments: times are reals, so the truncation of a crossing to whole milliseconds and floating-point rounding are not modelled; nor are not-a-number values or holes in the array.
- TenantPatch: endpoints that write the tenant row without its version; other actions only put operation ids on record.
- Prompts: model, author and regression columns, and database errors in the resolver (which it answers with the fallback).
- Prompts: the version number and UNIQUE(prompt_key, version). Drafts are inserted with the default number 1, so in the shipped schema a second draft of a key fails, and two versions of one key exist only where rows have been numbered by hand.
- PushQueue: the file's rewrite and each append are single steps that happen or not, never in part; one thread owns the queue; bodies are JSON on one line (the encoder escapes every line break); HMAC headers.
- Templates: the contents of the registry are a parameter; duplicate complaints are not merged and complaints are not worded; letters outside ASCII are not lowered in the script check.
- Lockout: attempts of one process run one after another; whether a code is needed at all, decrypting secrets and checking codes are parameters; the password check, sudo sessions and cookies.
- Quota: one calendar month with two fixed limits, the one in effect and the one the notices go by; percentages are exact; deliveries on record from before the month are taken to stay within the 31 days; a read of the stored plan that fails at some notices only (one that always fails is a stored free plan); which of the admins is told; past-due blocking.
- Dunning: the seat reconciliation inside the downgrade, which is one step here; whether a mail was accepted; a failing lookup or insert of events, which ends the cycle like any death; the free-plan tenant that is past due is covered only by the cycle, not by the episode theorems.
- DateRange: time zones and daylight saving (a date is its local day), and the spellings `Number` accepts beyond digits, such as signs, exponents and white space.
- IndianTime: instants before 1945, when the offset was not five and a half hours, and the range limits of Python dates.
- SQL guard, ledger, data quality, retention, Data Studio, rollout buckets, formatting, content pages and everything under React: single-step or user-interface code whose properties would read off one body.
