# imgdl: a verified model of the download core

imgdl downloads a batch of image URLs concurrently over pooled connections. This project models the
parts of its Rust core where concurrency, budgets and naming interact, and proves what they promise.

- `PoolModel.dfy`, `Pool.dfy`: the connection pool's choice of action as pure functions, and the pool
  as classes changed in place, each critical section proved against those functions.
- `PoolProtocol.dfy`, `PoolRuns.dfy`: the pool as a protocol of many tasks. Each critical section under
  the lock is one step; opening and using connections happens between steps; a task may be cancelled
  at any moment. An inductive invariant over every interleaving gives the theorems about whole runs.
- `PoolStability.dfy`, `PoolStuck.dfy`, `PoolCauses.dfy`: what an entry knows about its host's protocol,
  exactly when an entry can never serve anyone again, and what it takes to get there.
- `Acquire.dfy`, `Attempts.dfy`: the acquire loop, and one whole attempt of a download, running among
  arbitrary steps of other tasks.
- `Retry.dfy`, `Transport.dfy`, `Download.dfy`: bounded retries around bounded redirects, with the
  redirect limit carried across one change of host.
- `Permits.dfy`, `Batch.dfy`: the semaphores of a batch over every interleaving; deduplication,
  collection in any completion order, and assembly in input order.
- `Naming.dfy`, `Summary.dfy`: file names and the batch summary.

Opens, requests, polls of HTTP/2 senders, the clock's jitter, the deadline and the order in which tasks
end are parameters or free choices. Integers are unbounded except where the width matters: the redirect
counter (8 bits), the truncation's subtraction and the byte totals (64 bits) wrap, as in a release
build; a debug build would stop with a panic there.

Five promises are not kept by the code on all inputs; for each the project proves the exact condition.

- Waiting for a connection is not always temporary. An entry is created with a provisional HTTP/2
  protocol that only its first opener corrects; if that opener fails while a later one succeeds with
  HTTP/1.1, returned connections are never handed out again. Likewise with a cap of 0 an entry whose
  only connection died admits nobody. `PoolStuck.StuckReachableIff` says for which caps this can happen
  when no task is cancelled and hosts keep their protocol. A batch timeout drops tasks with whatever they
  hold, and the pool outlives the batch: `PoolCauses.StuckWithCancelsIff` gives the exact condition for
  any number of cancellations, one of which is enough at the default cap of 1. A host that changes
  protocol can wedge its entry at every cap (`PoolCauses.EveryCapCanStick`).
- A redirect limit of 255 bounds nothing, because the counter wraps first (`Transport.RequestBoundIff`).
- A base delay of 2^64 milliseconds or more is cast to 64 bits first, so the backoff is that of the
  remainder unless it saturates anyway (`Retry.BackoffSaturates`).
- A UrlBased name longer than 200 whose suffix is longer than 200 is not cut (`Naming.NameBound`,
  `Naming.LongName`).
- A batch with a semaphore of size 0 and a URL that has a host never ends unless a batch timeout drops
  its tasks (`Permits.DeadlockFreeIff`).

One comment in the source disagrees with its code: the configuration describes content-hash names as 16
hexadecimal characters, while the code produces 32. The model follows the code.

## Model

| member | source | states |
|---|---|---|
| PoolModel.ActionSelection | crates/imgdl-core/src/pool.rs:245-332 | a decision keeps, in order, exactly the H1 connections and the H2 ones polled Ready or AtCapacity (all of them on an H1 entry), hands out the first reusable one (emptying only that H1 slot), opens exactly when nothing is reusable and the count is below the cap, and waits exactly when nothing is reusable and the cap is reached |
| PoolModel.FirstReusable | crates/imgdl-core/src/pool.rs:289-316 | the index found is reusable under the entry's protocol and no earlier one is; none found means none is reusable |
| PoolModel.CleanedKeeps | crates/imgdl-core/src/pool.rs:273-287 | the first pass keeps exactly the H1 connections and the H2 ones polled Ready or AtCapacity, without reordering; on an H1 entry it keeps all |
| PoolModel.RefilledAt | crates/imgdl-core/src/pool.rs:222-229 | with ordered ids, a returned sender goes into exactly the slot with its id |
| PoolModel.WithoutAt | crates/imgdl-core/src/pool.rs:239 | with ordered ids, removal by id takes out exactly one connection |
| PoolModel.PoolSelection | crates/imgdl-core/src/pool.rs:246-332 | the same for the whole pool; a host without an entry gets a provisional HTTP/2 one with opening count 1 and its first opener |
| PoolModel.BusyHostWaits | crates/imgdl-core/src/pool.rs:273-332 | an HTTP/2 entry at its cap whose senders are all polled AtCapacity is left as it is, and the task waits |
| Pool.HostPool.H2Action | crates/imgdl-core/src/pool.rs:273-303 | the two passes in place compute the pure decision, and with ordered ids keep every connection not polled Dead before one is handed out, opened or waited for |
| Pool.HostPool.H1Action | crates/imgdl-core/src/pool.rs:305-319 | the scan in place computes the pure decision, and with ordered ids hands out the first sender in its slot or else opens or waits |
| Pool.HostPool.ScaleOrWait | crates/imgdl-core/src/pool.rs:321-332 | room is reserved for one more connection without ever exceeding the cap, and a caller is told to wait, with nothing changed, only when the cap is reached |
| Pool.HostPool.AllocateId | crates/imgdl-core/src/pool.rs:67-71 | with ordered ids, the id is larger than every id in the entry, and a connection appended with it keeps ids ordered below the moved counter |
| Pool.HostPool.Insert | crates/imgdl-core/src/pool.rs:350-379 | a reserved opening becomes a connection with a fresh id and the total stays; ids stay ordered; returning an H1 sender by the handle's id fills exactly the new slot, and removing that id restores the connections; entry and handle are those of the step function |
| Pool.HostPool.ReturnSender | crates/imgdl-core/src/pool.rs:222-229 | the loop over the connections is the by-id refill |
| Pool.HostPool.RemoveConnection | crates/imgdl-core/src/pool.rs:239 | the retain loop is removal by id |
| Pool.ConnectionPool.DetermineAction | crates/imgdl-core/src/pool.rs:246-271 | the whole map after a decision, connection by connection and poll by poll, including the entry created with opening count 1 for a new host; a busy HTTP/2 host at its cap is unchanged and answers Wait |
| Pool.ConnectionPool.OpenSucceeded | crates/imgdl-core/src/pool.rs:343-380 | the whole map and the handle after a successful open; an error and no change if the entry is missing |
| Pool.ConnectionPool.OpenFailed | crates/imgdl-core/src/pool.rs:381-393 | the whole map after a failed open; an entry left with nothing is removed |
| Pool.ConnectionPool.ReturnH1Connection | crates/imgdl-core/src/pool.rs:212-232 | the whole map after an H1 sender is returned |
| Pool.ConnectionPool.RemoveDeadConnection | crates/imgdl-core/src/pool.rs:235-243 | the whole map after a dead connection is removed |
| Pool.ConnectionPool.FinishConnection | crates/imgdl-core/src/orchestrator.rs:512-531 | H1 handles are returned or removed by usability; H2 handles change no connection |
| PoolProtocol.StepKeeps | crates/imgdl-core/src/pool.rs:175-394 | every step of every task, cancellation included, keeps the protocol invariant |
| PoolProtocol.DecideKeeps | crates/imgdl-core/src/pool.rs:246-332 | a decision keeps the invariant whatever the polls report |
| PoolProtocol.OpenOkKeeps | crates/imgdl-core/src/pool.rs:343-380 | a successful open keeps the invariant |
| PoolProtocol.OpenErrKeeps | crates/imgdl-core/src/pool.rs:381-393 | a failed open keeps the invariant, also when it removes the entry |
| PoolProtocol.FinishKeeps | crates/imgdl-core/src/orchestrator.rs:512-531 | finishing a request keeps the invariant |
| PoolProtocol.CancelKeeps | crates/imgdl-core/src/orchestrator.rs:164-165 | a task can be dropped in any phase; that changes nothing but its liveness and keeps the invariant |
| PoolRuns.CancelledStays | crates/imgdl-core/src/orchestrator.rs:164-165 | after a task is dropped, no run ever gives back what it claims of the pool |
| PoolRuns.ReachableInv | crates/imgdl-core/src/pool.rs:175-394 | the invariant holds in every reachable state |
| PoolRuns.OpeningAccounting | crates/imgdl-core/src/pool.rs:342-393 | the opening count is the opens in flight plus the cancelled openers; each opener's own entry is there; a key has at most one first opener, and none once settled |
| PoolRuns.OpenNeverDisappears | crates/imgdl-core/src/pool.rs:344-350 | an open can always complete either way: the entry has not disappeared and the decrement does not underflow |
| PoolRuns.CapacityBound | crates/imgdl-core/src/pool.rs:63-71 | connections plus opens are at most max(1, cap); ids increase in list order and stay below the counter |
| PoolRuns.H1Conservation | crates/imgdl-core/src/pool.rs:305-316 | a pooled H1 connection has its sender either idle in its slot or with exactly one task, and no sender is in two places |
| PoolRuns.NoABA | crates/imgdl-core/src/pool.rs:212-243 | an H1 return or removal hits exactly the holder's own slot, of its own entry generation, while empty; an H2 holder touches no connection |
| PoolRuns.FinishGivesUp | crates/imgdl-core/src/orchestrator.rs:512-531 | after an H1 request a usable sender is in its connection's slot again; after an unusable one no connection has that id |
| PoolRuns.HolderKeepsItsEntry | crates/imgdl-core/src/pool.rs:212-243 | while a task holds an H1 sender, no run of other tasks removes its entry or its slot |
| PoolRuns.OnlyCancelledLeaks | crates/imgdl-core/src/pool.rs:335-394 | with nothing in progress, the opening count and the empty H1 slots are exactly those of cancelled tasks |
| PoolRuns.Quiescence | crates/imgdl-core/src/pool.rs:335-394 | without cancellation, with nothing in progress every opening count is 0 and every H1 slot is idle |
| Acquire.SharedPool.AcquireHandle | crates/imgdl-core/src/pool.rs:175-197 | among arbitrary steps of other tasks: at most 32 decisions, all but the last Wait; gives up only after 32 Waits; opens at most once, completed by exactly one step |
| Acquire.SharedPool.OpenAndInsert | crates/imgdl-core/src/pool.rs:335-394 | the open runs unlocked among other tasks and is then recorded by one success or failure step |
| Acquire.SharedPool.Round | crates/imgdl-core/src/pool.rs:177-192 | what one turn of the loop does for each of the three actions |
| Acquire.SharedPool.Release | crates/imgdl-core/src/orchestrator.rs:512-531 | giving a handle up is one finishing step, after which the task claims nothing, and an H1 sender is in its slot or its connection gone |
| Acquire.EnvironmentKeeps | crates/imgdl-core/src/pool.rs:187-191 | steps of other tasks lead to reachable states and leave the waiting task's phase alone |
| Acquire.TakeDecide | crates/imgdl-core/src/pool.rs:178-192 | after a decision the task is where its action says, and after the 32nd Wait it is out |
| Attempts.Attempt | crates/imgdl-core/src/orchestrator.rs:303-313 | an attempt's own steps are Begin, its decisions, the completion of an open if there was one, and one Finish, usable exactly after data, a redirect signal or an HTTP error status, or an acquisition error without a Finish; an H1 sender then is in its slot again, or its connection is gone; whatever the outcome it claims nothing afterwards |
| PoolStability.ProtocolStability | crates/imgdl-core/src/pool.rs:352-374 | for a host with one fixed protocol, once the first opener succeeded the entry's protocol and every connection's kind are that protocol until removal |
| PoolStability.ProtoStep | crates/imgdl-core/src/pool.rs:262 | an unsettled entry keeps the provisional HTTP/2, a settled one has the host's protocol, at every step |
| PoolStuck.StuckForever | crates/imgdl-core/src/pool.rs:273-332 | a stuck entry is never changed again by any run |
| PoolStuck.StuckIffNeverServed | crates/imgdl-core/src/pool.rs:246-332 | an entry is stuck if and only if no continuation at all reaches a decision other than Wait |
| PoolStuck.StuckReachableIff | crates/imgdl-core/src/pool.rs:259-269 | if no task is cancelled and hosts do not change protocol, a host can get stuck exactly when the cap is 0, or is at least 2 and the host speaks HTTP/1.1 |
| PoolStuck.OrphanArises | crates/imgdl-core/src/pool.rs:352-357 | a concrete run: the first opener fails, the second succeeds with HTTP/1.1, and the entry stays HTTP/2 |
| PoolStuck.ZeroCapSticks | crates/imgdl-core/src/pool.rs:321-332 | a concrete run: with cap 0 the entry outlives its only connection and admits nobody |
| PoolStuck.NotStuck | crates/imgdl-core/src/pool.rs:352-357 | with cap at least 1, a settled entry or an HTTP/2 host is never stuck in a cancellation-free state |
| PoolStuck.SmallStep | crates/imgdl-core/src/pool.rs:259-269 | with cap at most 1 an unsettled entry has no connections and its first opener is in flight, at every step |
| PoolCauses.StuckWithCancelsIff | crates/imgdl-core/src/orchestrator.rs:164-165 | with protocols fixed and at most n cancellations, a host can get stuck exactly when the cap is 0, or is at least 2 and the host speaks HTTP/1.1, or n is at least the cap |
| PoolCauses.CancellationSticks | crates/imgdl-core/src/orchestrator.rs:164-165 | for every cap and every protocol, a run with max(1, cap) cancelled openers ends stuck |
| PoolCauses.StuckIffLost | crates/imgdl-core/src/pool.rs:321-332 | with cap at least 1, a settled entry or an HTTP/2 host is stuck if and only if cancelled tasks hold the whole cap, as openers or with the senders of emptied H1 slots |
| PoolCauses.Http2NeedsCancels | crates/imgdl-core/src/pool.rs:273-303 | at an HTTP/2 host a stuck entry takes at least as many cancelled tasks as the cap |
| PoolCauses.EveryCapCanStick | crates/imgdl-core/src/pool.rs:352-374 | if hosts may change protocol, every cap can get stuck without any cancellation |
| PoolCauses.FickleHostSticks | crates/imgdl-core/src/pool.rs:352-374 | a concrete run at cap 1: the only HTTP/2 connection dies, its replacement is HTTP/1.1, and the settled HTTP/2 entry never reuses it |
| Retry.BackoffSaturates | crates/imgdl-core/src/retry.rs:26-27 | before jitter the delay is the 64-bit truncated base times 2^attempt, saturated, for every attempt number; it is that of the configured base exactly when the cast loses nothing or the delay saturates anyway |
| Retry.JitterRange | crates/imgdl-core/src/retry.rs:29-47 | for every base, the delay is at least the saturated base delay, at most 1.5 times the exact one and strictly below twice it |
| Retry.BackoffGrows | crates/imgdl-core/src/retry.rs:21-47 | whatever the jitter, delays never decrease, and strictly increase while the next doubled base fits |
| Retry.TotalBackoff | crates/imgdl-core/src/retry.rs:81-90 | n unsaturated delays sum to between b * (2^n - 1) and 1.5 times that, for the truncated base b |
| Retry.BackoffIs | crates/imgdl-core/src/retry.rs:21-47 | a Retry-After delay is taken as it is; any other delay is the saturated base plus the scrambled nanoseconds modulo half of it |
| Retry.WithRetry | crates/imgdl-core/src/retry.rs:58-94 | calls are reported retries plus one, at most max_retries plus one; every earlier result was a timeout, a lost connection or an HTTP status of 429 or 503; it stops early exactly on any other result; each sleep is the Retry-After of that failure if it has one, else the backoff |
| Retry.StopsOnce | crates/imgdl-core/src/retry.rs:69-92 | the stopping place is determined by the outcomes and the limit |
| Transport.ExecuteWithRedirects | crates/imgdl-core/src/transport.rs:108-231 | the redirect loop computes the leg's outcome, requests and followed redirects |
| Transport.LegTraced | crates/imgdl-core/src/transport.rs:108-231 | every leg, reply by reply: each reply but the last is a 301, 302, 307 or 308 within the limit whose resolved Location is the next request, on the leg's host; the last decides the outcome; with no reply left it is a timeout |
| Transport.LegAnswers | crates/imgdl-core/src/transport.rs:188-230 | data is the body of a 2xx reply; an HTTP status error has the code, the text up to 200 characters and the Retry-After of a reply that is neither 2xx nor a redirect |
| Transport.SameHostMeans | crates/imgdl-core/src/transport.rs:171-173 | two hosts are the same exactly if they differ at most in the case of ASCII letters; no host counts as an empty one |
| Transport.LegBudget | crates/imgdl-core/src/transport.rs:114-185 | for limits up to 254: requests and followed redirects stay within the limit, a cross-host signal carries exactly what is left and names another host, and all later requests stay on the leg's host |
| Transport.SignalCarries | crates/imgdl-core/src/transport.rs:172-180 | for every limit a leg requests its start and then only its host, and a cross-host signal carries no more than the limit and names another host |
| Transport.RequestBoundIff | crates/imgdl-core/src/transport.rs:145-151 | limit + 1 requests bound every leg if and only if the limit is at most 254 |
| Transport.EndlessRedirects | crates/imgdl-core/src/transport.rs:145-146 | with the limit at 255 the 8-bit counter wraps and any number of redirects is followed |
| Download.Fetch | crates/imgdl-core/src/orchestrator.rs:296-338 | a fetch is its two retried legs: data only if a 2xx reply to the last attempt at the endpoint where it ended had that body, that attempt's error unchanged, and an error after a second change of host; it requests its own URI and URIs of at most two hosts, its own and the one it was redirected to; for limits M up to 254 it sends at most (R+1)*(2M+1) requests and its used attempts follow at most M redirects |
| Download.FollowCrossHostRedirect | crates/imgdl-core/src/orchestrator.rs:453-507 | no host: refused without a request; otherwise retried attempts with the remaining limit, all requests on the new host, where data and errors of the last attempt are passed on and another change of host is TooManyRedirects |
| Download.RetryAt | crates/imgdl-core/src/orchestrator.rs:297-315 | retried attempts at one endpoint: where they stop, what they requested, all of it the endpoint's, how long they slept, and what a cross-host outcome carries |
| Download.AttemptIs | crates/imgdl-core/src/orchestrator.rs:303-313 | an attempt without a connection fails with the pool's error and requests nothing of the leg; any other is its leg, reply by reply |
| Download.RequestedIs | crates/imgdl-core/src/orchestrator.rs:297-315 | the attempts request what each of them requests, one after the other, and nothing else |
| Download.AttemptBudget | crates/imgdl-core/src/orchestrator.rs:303-313 | one attempt sends at most limit + 1 requests, and a cross-host outcome leaves the rest of the limit |
| Permits.PermitSafety | crates/imgdl-core/src/orchestrator.rs:278-288 | in every state of every run: at most the host cap of tasks per host and the global cap in all are past their acquires; host-permit holders hold a global permit |
| Permits.StepKeeps | crates/imgdl-core/src/orchestrator.rs:278-288 | permits available plus permits held equal the caps after every step, also when a task is dropped |
| Permits.StepIs | crates/imgdl-core/src/orchestrator.rs:278-288 | permit by permit what each step does: a hosted task takes a global permit, then one of its host, then gives both back; a dropped one gives back exactly what it holds; nobody else is touched |
| Permits.WhoCanAdvance | crates/imgdl-core/src/orchestrator.rs:278-288 | a hosted task waiting for a permit can go on exactly when fewer tasks than the cap hold one; a task without a host needs none; any task not done can be dropped |
| Permits.RunsBeforeDone | crates/imgdl-core/src/orchestrator.rs:278-288 | in every run in which it is not dropped, a task with a host is done only after having held both permits |
| Permits.Progress | crates/imgdl-core/src/orchestrator.rs:278-288 | with both caps positive, an unfinished task means somebody can step |
| Permits.EveryRunFinishes | crates/imgdl-core/src/orchestrator.rs:93-131 | every run has at most three steps per task, and one that nobody can continue has finished every task |
| Permits.DeadlockFreeIff | crates/imgdl-core/src/orchestrator.rs:93-95 | with at least one URL that has a host, deadlock freedom holds if and only if both caps are at least 1 |
| Batch.Deduplicate | crates/imgdl-core/src/orchestrator.rs:98-102 | the insertion-ordered map lists, for each distinct URL, exactly its positions in order |
| Batch.DedupPartitions | crates/imgdl-core/src/orchestrator.rs:98-111 | the lists partition the positions, start at the first occurrence, and stand in first-occurrence order |
| Batch.Collect | crates/imgdl-core/src/orchestrator.rs:133-162 | tasks join in any order; each joined non-panicked task contributes its own result; without a timeout all are joined |
| Batch.Assemble | crates/imgdl-core/src/orchestrator.rs:167-189 | position by position, the collected result or the missing-result failure with the clock of that position |
| Batch.DownloadBatch | crates/imgdl-core/src/orchestrator.rs:69-221 | results have the input's length and order, and each position holds its URL's one task's result if that finished, else a failure with Timeout if a batch timeout is set and a panic error otherwise |
| Naming.TruncateCuts | crates/imgdl-core/src/output/naming.rs:82-106 | short names are kept; long ones come out at exactly 200 keeping a suffix shorter than 200; the result exceeds 200 if and only if name and suffix do |
| Naming.NameBound | crates/imgdl-core/src/output/naming.rs:6-19 | every name is non-empty and safe; it has at most 200 characters if and only if the strategy is not UrlBased or name or suffix is within 200; Sequential and ContentHash names are never cut |
| Naming.LongName | crates/imgdl-core/src/output/naming.rs:82-106 | a concrete URL whose UrlBased name has 201 characters |
| Naming.SegmentOf | crates/imgdl-core/src/output/naming.rs:44-56 | the last segment is what follows the path's last slash, or all of it without one; query and fragment do not matter |
| Naming.FileHeaderSuffix | crates/imgdl-core/src/output/naming.rs:142-160 | a FileHeader name ends in the detected extension and in nothing longer |
| Naming.NumberedNames | crates/imgdl-core/src/output/naming.rs:122-140 | Sequential: the padded index; ContentHash: the first 16 bytes of the body's digest in hexadecimal; both followed by the URL's extension or else the detected one, and never cut |
| Naming.UrlNames | crates/imgdl-core/src/output/naming.rs:108-160 | UrlBased: the last segment sanitized character by character, or 16 digest bytes and .bin; FileHeader: that segment up to its last dot, or 8 digest bytes, and the detected extension |
| Naming.HexReads | crates/imgdl-core/src/output/naming.rs:115 | each byte reads back from its two lower-case hexadecimal digits |
| Naming.SequentialParts | crates/imgdl-core/src/output/naming.rs:122-129 | the number before the first dot is the index; an image name has one dot and its sidecar more |
| Naming.SequentialNoCollision | crates/imgdl-core/src/orchestrator.rs:109-116 | over a whole batch, images of distinct URLs, their sidecars and the summary file all have different names |
| Naming.PadValue | crates/imgdl-core/src/output/naming.rs:128 | reading the zero-padded number back gives the index |
| Naming.ExtensionIs | crates/imgdl-core/src/output/naming.rs:51-65 | the extension is the lower-cased text after the last dot of the last segment if that is 1 to 10 letters and digits, else there is none; query and fragment do not matter |
| Naming.Sanitize | crates/imgdl-core/src/output/naming.rs:68-78 | safe characters stay, every other one becomes an underscore, and a safe name is unchanged |
| Naming.DetectFormats | crates/imgdl-core/src/output/naming.rs:22-42 | jpg, png, gif and webp are each detected exactly on their signature, avif exactly on its own when none of those is there, otherwise bin |
| Summary.WriteBatchSummary | crates/imgdl-core/src/output/summary.rs:63-143 | totals, grouped per-host statistics with average times, and result lines of all results, position by position |
| Summary.SummaryTallies | crates/imgdl-core/src/output/summary.rs:73-130 | every figure of the summary is a sum over the results themselves: successes, failures and bytes of all, and for each host requests, successes, failures, bytes and average time of its own |
| Summary.SummaryConserves | crates/imgdl-core/src/output/summary.rs:107-143 | requests, successes and failures sum over the hosts to the batch's; bytes do so modulo 2^64, and exactly if the total fits |
| Summary.TimesConserve | crates/imgdl-core/src/output/summary.rs:107-130 | each host's average time multiplied by its requests is the time of its results, and these times sum to the batch's |
| Summary.Conserved | crates/imgdl-core/src/output/summary.rs:80-95 | any additive measure of all results is the sum over the hosts of its measure of each host's |
| Summary.HostOfUrl | crates/imgdl-core/src/output/summary.rs:45-52 | for a URL of the usual shape the host is what stands between the scheme and the port or path |
| Summary.UnknownHost | crates/imgdl-core/src/output/summary.rs:45-52 | a text without // has the host unknown |
| Summary.IndexOfFirst | crates/imgdl-core/src/output/summary.rs:45-52 | splitting happens at the first occurrence of the separator |

## Left out

- TCP, TLS and HTTP handshakes, and DNS with its cache: an open succeeds with some protocol or fails.
- Sending requests and reading bodies: a leg meets a sequence of replies, and the request timeout is where it ends.
- Real time: deadlines and timeouts may strike anywhere; the 250 ms wait lets other tasks take any number of steps.
- Wake-ups: notifications change no pool state and no fairness is claimed; progress claims are about the bounded loop only.
- Panics inside a critical section. A task that panics elsewhere is treated like a cancelled one.
- The URI grammar: URIs are opaque with an optional host, and resolving a Location is a parameter.
- A per-host cap on redirect targets: the code runs the second leg under the first host's permit.
- Validation of bodies, writing files, metadata contents, JSON, logging: no control flow of their own.
- Floating-point rounding: average times are real numbers over whole milliseconds.
- SHA-256: digests are parameters. Uniqueness of UrlBased, ContentHash and FileHeader names is not claimed.
- Semaphores are modelled on values, as a state machine: the library's semaphore objects, their queues and the lock around the map of host semaphores are not.
- The record a single download ends with (error, elapsed time, path) and the parsing of its URL: a batch is given what each task ends with.
- A per-method environment: `SharedPool.Interfere` does nothing itself, and its contract allows its callers any steps of other tasks.
- The Python bindings, the command line, tests and benchmarks.
