# Durable runs, event delivery, office paths and approvals: a verified model

A Dafny model of the parts of the Seleric swarm service where many small rules have to
add up to one promise, with proofs that they do.

* **Durable runs** (`RunModel`, `RunInvariant`, `RunSteps`, `RunEffects`, `RunTraces`, `RunHistory`,
  `RunGuarantees`, `RunLeases`, `RunRepository`, `Recovery`, `Identifiers`). The in-memory run repository is
  a class over four dictionaries; each operation runs under one lock and is proved equal to one
  step on a value `State`. Any interleaving of submissions, claims, heartbeats, starts, commits,
  failures, recovery scans, cancellations and appends is an `Execution`, a sequence of states and
  steps. The theorems are about every execution: attempt numbering, one live attempt, fencing,
  lease exclusion, leases that protect until they end, one final outcome per run and log, no lost
  run, no run failed while attempts are left, bounded retries and delays. `RunEffects` says of every
  step when it is accepted and what it writes, in plain values, independently of the step functions.
* **Event delivery** (`SseWire`, `EventDelivery`, `DeliverySystem`). The server's printer and
  generator, a connection that can end after any character, and the client's splitter, parser
  and cursor form one transition system. The client has, at every moment of every run, exactly
  the visible log entries up to its cursor, in order, once each. The wire format is that of
  section 9.2.6 of the WHATWG HTML Standard.
* **Office navigation** (`TileGrid`, `PathSearch`, `LineWalk`). The A\* search over any grid: it
  finds a shortest path when there is one and otherwise a closest reachable tile. The integer line
  walk and the ring search are proved to do what their names say.
* **Approvals** (`Approvals`). The status machine with compare-and-set on the status alone, and
  exactly who may decide what.
* **Pages** (`Base64`, `Pagination`). Keyset pages and the encoded cursor, sections 3.2 and 5 of
  RFC 4648.
* **Rate limiting** (`RateLimiter`), **mission-event ingestion** (`EventMapping`, `Ingestion`)
  and the **context builder** (`Budgets`, `ContextBuilder`).

Time is a real number and a parameter of every operation; so are random draws. Where the source
changes things in place the model is a class or a loop with invariants; where it computes a value
the model is a function.

Where the code does not do what its documentation says, the model follows the code:

* An internal cancel (no terminal event) leaves a cancelled run without a terminal event, so it
  breaks "one terminal event per finished run" exactly when it takes effect: `SilentCancelExact`.
* `finalize_attempt` accepts a non-terminal status; it keeps the protocol's invariant exactly when
  the status is terminal: `FinalizeExact`.
* Kinds of older missions are meant to show as their present-day equivalents. `query_normalized`
  does not, and is the only one: `OldKindsShowAsNew`.
* A printed event name is read back exactly when it contains no line feed and does not end in a
  carriage return: `EventNameExact`.

* The wait that a denied caller is told is rounded down to whole seconds. It is enough exactly when
  rounding took nothing off: `RetryEnough`.
* Data lines of a frame are joined by line feeds only from the first non-empty one on: `DataJoins`
  is about frames whose first data line is not empty.

## Model

| member | source | states |
|---|---|---|
| RunTraces.AlwaysInv | src/seleric_swarm/conversations/memory.py:204-792 | the store's invariant (attempts, logs, outbox, thread sequences) holds in every state of every execution, whatever the interleaving |
| RunTraces.AttemptNumbering | src/seleric_swarm/conversations/memory.py:310-339 | in every reachable state a run's attempts are numbered exactly 1..current_attempt <= max_attempts, each once; a run that is not over has exactly one live attempt, the highest-numbered, and a run that is over has none; retry_count is current_attempt - 1 |
| RunTraces.OutcomeInLog | src/seleric_swarm/conversations/memory.py:443-520 | in every reachable state a completed run's log holds exactly one terminal event, run.completed, a failed run's exactly one, run.failed, a cancelled run's exactly one, run.cancelled, each with its outbox row published; the log of any other run holds none |
| RunGuarantees.OutcomeIsFinal | src/seleric_swarm/conversations/memory.py:448-449 | a terminal status, its terminal event and the absence of live attempts persist for the rest of any execution |
| RunHistory.Grows | src/seleric_swarm/conversations/memory.py:323-367 | between any two moments attempts stay and versions never go down, a status changes only with the version, terminal statuses stay, logs grow at the end only, and new events of a thread come after its old ones |
| RunHistory.Fencing | src/seleric_swarm/conversations/memory.py:431-439 | once an attempt has moved on from a token (attempt, version), no later heartbeat, finalize or fail that presents the token is accepted |
| RunHistory.LostForGood | src/seleric_swarm/conversations/memory.py:535-550 | a token that stops being in force has been passed by the attempt's version |
| RunGuarantees.HowTokensEnd | src/seleric_swarm/conversations/memory.py:666-678 | a token is lost only by a claim or scan after its lease ran out, by its own holder's failure report, or by a step that ends the run |
| RunGuarantees.ClaimExcludes | src/seleric_swarm/conversations/memory.py:315-339 | after a successful claim no other token of the run is in force, and the run is not over |
| RunGuarantees.LeaseExclusion | src/seleric_swarm/conversations/memory.py:323-326 | with a monotone clock, when another token of the run is claimed, an earlier token's lease had run out by then, or its holder had given it up |
| RunLeases.ClaimProtects | src/seleric_swarm/conversations/memory.py:323-339 | with a monotone clock, after a claim granted at t with lease d every later claim of the run before t + d is refused, unless the holder reports a failure or renews |
| RunLeases.RenewalProtects | src/seleric_swarm/conversations/memory.py:353-367 | likewise from an accepted heartbeat on, until its own time plus its lease |
| RunLeases.LeaseHolds | src/seleric_swarm/conversations/memory.py:431-439 | a token and the end of its lease stay as they are until then, unless it is given up or renewed or the run is over |
| RunLeases.LeaseStays | src/seleric_swarm/conversations/memory.py:353-367 | while a token stays in force only its own heartbeat moves the end of its lease |
| RunLeases.FailedWhenExhausted | src/seleric_swarm/conversations/memory.py:575-617 | a run that a failure report ends had its last attempt, or one that must not be retried |
| RunGuarantees.AppendOrder | src/seleric_swarm/conversations/memory.py:733-754 | events keep their place and numbers; later appends get larger run and thread sequences |
| RunGuarantees.NoRunLost | src/seleric_swarm/conversations/memory.py:709-731 | the live attempt of every unfinished run is listed by every scan from a computable moment on, and by none before its delay is over or while its lease lasts; no other attempt of that run is ever listed, and finished runs are listed by none |
| RunGuarantees.RetriesBounded | src/seleric_swarm/conversations/memory.py:575-640 | over any execution the number of reschedulings of a run equals retry_count and current_attempt - 1, hence is at most max_attempts - 1 |
| RunGuarantees.DelaysBounded | src/seleric_swarm/recovery.py:92-104 | over any execution the delays scheduled for a run sum to at most delay * (2^(max_attempts-1) - 1) + (max_attempts - 1) * jitter |
| RunGuarantees.BackoffDoubles | src/seleric_swarm/recovery.py:92-94 | the first delay is the base, each further one twice the last, each with a draw on top; without a base neither |
| RunGuarantees.FinalizeExact | src/seleric_swarm/conversations/memory.py:443-463 | committing a held attempt keeps the invariant if and only if the requested status is terminal |
| RunGuarantees.SilentCancelExact | src/seleric_swarm/conversations/memory.py:679-707 | a cancel without a terminal event keeps the invariant if and only if it is refused |
| RunSteps.SubmitKeeps | src/seleric_swarm/api/async_missions.py:230-242 | submitting a run under a fresh id keeps the invariant |
| RunSteps.ClaimKeeps | src/seleric_swarm/conversations/memory.py:310-339 | claiming keeps the invariant |
| RunSteps.ClaimEffect | src/seleric_swarm/conversations/memory.py:315-339 | a claim acts on the current attempt of the run and on nothing else, and succeeds exactly when that is claimable |
| RunSteps.HeartbeatKeeps | src/seleric_swarm/conversations/memory.py:341-367 | a heartbeat keeps the invariant |
| RunSteps.StartKeeps | src/seleric_swarm/api/conversations.py:1233-1237 | the compare-and-set from QUEUED to RUNNING keeps the invariant |
| RunSteps.ReapIsVoid | src/seleric_swarm/recovery.py:136-146 | a cancelled run has no leased attempt left, so the scan's clean-up branch changes nothing |
| RunSteps.FinalizeKeeps | src/seleric_swarm/conversations/memory.py:417-520 | committing a terminal status keeps the invariant, writing the one terminal event |
| RunSteps.FailKeeps | src/seleric_swarm/conversations/memory.py:522-640 | failing an attempt keeps the invariant in all four outcomes |
| RunSteps.CancelKeeps | src/seleric_swarm/conversations/memory.py:642-707 | cancelling with a terminal event keeps the invariant |
| RunSteps.AppendKeeps | src/seleric_swarm/conversations/memory.py:733-754 | appending an ordinary event keeps the invariant, duplicate, out of order or new |
| RunSteps.PublishKeeps | src/seleric_swarm/conversations/memory.py:788-792 | marking an outbox row published keeps the invariant |
| RunEffects.SubmitEffect | src/seleric_swarm/api/async_missions.py:230-242 | a submitted run is QUEUED with attempt 1 RETRYABLE and a pending outbox row, and nothing else changes |
| RunEffects.SubmittedIsClaimable | src/seleric_swarm/api/async_missions.py:230-242 | any worker can claim it at once |
| RunEffects.ClaimGrants | src/seleric_swarm/conversations/memory.py:310-339 | a claim is granted exactly when the current attempt waits or its lease has run out; it leases that attempt to the worker until now + lease under the next version, and changes nothing else |
| RunEffects.HeartbeatRenews | src/seleric_swarm/conversations/memory.py:341-367 | a heartbeat is accepted exactly from the holder of the current version before its lease ends, and moves that end to now + lease and nothing else |
| RunEffects.StartEffect | src/seleric_swarm/conversations/memory.py:255-286 | starting succeeds exactly on a QUEUED run and keeps the first start time |
| RunEffects.CommitEffect | src/seleric_swarm/conversations/memory.py:443-520 | a commit by the holder gives run, attempt and the one new event the requested outcome, status by status, with the next run and thread sequence, and touches no other run |
| RunEffects.FailDecides | src/seleric_swarm/conversations/memory.py:535-575 | an accepted failure is retried exactly when the attempt is retryable and below max_attempts, and otherwise fails the run; a report without the token changes nothing |
| RunEffects.RetryEffect | src/seleric_swarm/conversations/memory.py:618-640 | the retry is the next attempt, RETRYABLE and as retryable as the last; the run is QUEUED until now + max(0, delay) |
| RunEffects.GiveUpEffect | src/seleric_swarm/conversations/memory.py:575-617 | giving up fails the run and logs one run.failed event |
| RunEffects.CancelEffect | src/seleric_swarm/conversations/memory.py:656-707 | a cancel succeeds exactly on an unfinished run, closes its live attempt and logs one run.cancelled event |
| RunEffects.AppendEffect | src/seleric_swarm/conversations/memory.py:733-754 | an append is refused exactly for a known id or a number that does not come next; otherwise the event goes to the end with its own or the next run number and the next thread number |
| RunEffects.PublishEffect | src/seleric_swarm/conversations/memory.py:788-792 | marking publishes the row, if there is one, and nothing else |
| RunEffects.LateCommit | src/seleric_swarm/conversations/memory.py:443-449 | in any state, a commit after a cancel leaves the run cancelled and logs no second cancellation; after another outcome it is refused |
| RunEffects.LateFailure | src/seleric_swarm/conversations/memory.py:554-563 | in any state, a failure after a cancel closes the attempt as cancelled and leaves run and log alone |
| RunEffects.ReapEffect | src/seleric_swarm/conversations/memory.py:384-415 | the scan's clean-up closes exactly an expired lease of the version it saw |
| RunEffects.ListedExactly | src/seleric_swarm/conversations/memory.py:709-731 | an attempt is listed exactly when it is the live one of its run, its run's delay is over and its lease, if any, has run out |
| RunRepository.Repository.Submit | src/seleric_swarm/api/async_missions.py:230-242 | performs the submission step on the four dictionaries |
| RunRepository.Repository.NewestAttempt | src/seleric_swarm/conversations/memory.py:315-322 | finds an attempt of the run with the highest number, if the run has any |
| RunRepository.Repository.Claim | src/seleric_swarm/conversations/memory.py:310-339 | performs the claim step; a claimed attempt is leased to the worker until now + lease, under a version one above the stored one |
| RunRepository.Repository.Heartbeat | src/seleric_swarm/conversations/memory.py:341-367 | performs the heartbeat step, refusing a stale worker, version or lease |
| RunRepository.Repository.Start | src/seleric_swarm/conversations/memory.py:255-286 | performs the compare-and-set from QUEUED to RUNNING |
| RunRepository.Repository.MaxThreadSequence | src/seleric_swarm/conversations/memory.py:743-751 | the largest thread sequence in use in a thread over the logs of all runs, 0 if none |
| RunRepository.Repository.Finalize | src/seleric_swarm/conversations/memory.py:417-520 | performs the fenced commit of attempt, run, event and outbox together; status by status, the attempt's status and the last event's type are those of the run |
| RunRepository.Repository.Fail | src/seleric_swarm/conversations/memory.py:522-640 | performs the fenced failure: stale, cancelled, failed for good, or rescheduled, the last exactly when the attempt is retryable and below max_attempts |
| RunRepository.Repository.Cancel | src/seleric_swarm/conversations/memory.py:642-707 | performs the cancellation of a run, its live attempts, its log and its outbox row, with or without a terminal event |
| RunRepository.Repository.AppendEvent | src/seleric_swarm/conversations/memory.py:733-754 | performs the append, once per id, with the next run and thread sequence |
| RunRepository.Repository.MarkPublished | src/seleric_swarm/conversations/memory.py:788-792 | marks the outbox row, if there is one |
| RunRepository.Repository.ListRecoverable | src/seleric_swarm/conversations/memory.py:709-731 | lists recoverable attempts only, each once, by start time, at most max(1, limit); one left out means the list is full of earlier ones |
| Recovery.RecoverExpired | src/seleric_swarm/recovery.py:124-162 | running alone, every scanned attempt is left waiting, followed by the next one after its back-off, or the run fails, as its number and retryability say; the three counters count these and add up to the number scanned; when the scan covers all that is recoverable, no expired lease is left |
| Recovery.ScanStep | src/seleric_swarm/recovery.py:147-161 | each failure in the scan is accepted, settles its own run and leaves the attempts still to come as they were listed |
| Recovery.FateStep | src/seleric_swarm/recovery.py:147-161 | each failure in the scan decides the fate of its own attempt, by number and retryability, and nobody else's |
| Recovery.FailEffect | src/seleric_swarm/conversations/memory.py:551-640 | a failure settles its run, leaves it without a leased attempt and touches no other run |
| Recovery.Settle | src/seleric_swarm/recovery.py:210-287 | a worker without its token changes nothing; with it, what it reports is the run's state afterwards, and the token is spent; a transient failure is never committed but retried exactly when attempts are left, any other outcome is committed as reported |
| Identifiers.AttemptIdsDiffer | src/seleric_swarm/conversations/memory.py:618-619 | attempt ids as text are equal only for the same attempt, across all runs and between random and derived ids |
| Identifiers.TerminalIdsDiffer | src/seleric_swarm/conversations/memory.py:584-585 | within one run's log the three forms of terminal event ids never clash as text |
| SseWire.ChunkIndependent | office-ui/src/api/runEvents.ts:75-80 | splitting a text after a prefix was split, carrying the left-over, is splitting it whole, wherever the cut, inside a separator included |
| SseWire.AnyChunking | office-ui/src/api/runEvents.ts:75-92 | for any sequence of chunks the frames and the left-over are those of the whole text |
| SseWire.RestHasNoFrame | office-ui/src/api/runEvents.ts:79-80 | the left-over holds no complete frame |
| SseWire.ParseSseFrame | office-ui/src/api/runEvents.ts:16-28 | the parsing loop computes the frame that the lines denote, none when no field is set |
| SseWire.ParsePrinted | src/seleric_swarm/api/conversations.py:242-254 | parsing a printed frame gives back id, event and data |
| SseWire.DataJoins | office-ui/src/api/runEvents.ts:18-26 | several data lines make one datum, joined by line feeds |
| SseWire.AbsorbField | office-ui/src/api/runEvents.ts:20-25 | a field line sets its field, and data extends what is there |
| SseWire.AbsorbOther | office-ui/src/api/runEvents.ts:19-25 | comments, blank lines and unknown fields add nothing |
| SseWire.EventNameExact | src/seleric_swarm/api/conversations.py:250-254 | a frame is read back whole if and only if its event name stays on its line |
| SseWire.SplitPrinted | src/seleric_swarm/api/conversations.py:250-254 | a printed frame is cut off the stream whole, whatever follows it |
| SseWire.SplitAnyBlankLine | office-ui/src/api/runEvents.ts:79-80 | every form of blank line ends a frame, with or without carriage returns |
| SseWire.SplitHeartbeat | src/seleric_swarm/api/conversations.py:1011-1011 | a heartbeat is cut off whole and parses to nothing |
| SseWire.DecimalRoundTrip | src/seleric_swarm/api/conversations.py:234-239 | a printed sequence number is read back |
| SseWire.ResumesAtCursor | src/seleric_swarm/api/conversations.py:234-239 | sending the cursor both as header and as parameter makes the server resume right there |
| SseWire.EventCursorExact | src/seleric_swarm/api/conversations.py:234-239 | the server resumes at the later of parameter and header number, after the header's last colon; no number does not count |
| EventDelivery.ListEventsIsSuffix | src/seleric_swarm/conversations/memory.py:756-762 | listing after a sequence gives the rest of the log from there |
| EventDelivery.Subscriber.Read | office-ui/src/api/runEvents.ts:76-92 | the reading loop extends the buffer, hands out the complete frames' events and advances the cursor |
| EventDelivery.HandleItems | office-ui/src/api/runEvents.ts:81-90 | complete frames of printed events and heartbeats deliver exactly those events and leave the cursor at the largest sequence |
| DeliverySystem.NextKeeps | src/seleric_swarm/api/conversations.py:991-1017 | every step of log, server, wire and client keeps the delivery invariant |
| DeliverySystem.DeliveredExactlyOnce | office-ui/src/api/runEvents.ts:49-101 | in every state of every run, with disconnects after any character, the events delivered are the visible log entries after the start up to the cursor, in order, once each |
| DeliverySystem.NothingMissing | src/seleric_swarm/api/conversations.py:993-1001 | when the server has worked through the log and the client has read what was sent, every visible entry has been delivered |
| TileGrid.HeuristicConsistent | office-ui/src/office/navmesh.ts:100-100 | along any path the Manhattan distance to the goal falls by at most one per step |
| TileGrid.KeyInjective | office-ui/src/office/navmesh.ts:96-96 | tiles of the grid have distinct numeric keys, so maps keyed by number are maps keyed by tile |
| PathSearch.LeastPriorityIsOptimal | office-ui/src/office/navmesh.ts:111-116 | the open tile of least priority is known at its true distance |
| PathSearch.ReachableIsClosed | office-ui/src/office/navmesh.ts:111-147 | when nothing is open, every reachable tile has been closed |
| PathSearch.SelectLeast | office-ui/src/office/navmesh.ts:112-114 | the scan finds an open node of least priority |
| PathSearch.Relax | office-ui/src/office/navmesh.ts:132-146 | handling a neighbour keeps the search's structure, never raises a cost, leaves closed tiles alone and discovers a walkable neighbour at most one step further |
| PathSearch.Expand | office-ui/src/office/navmesh.ts:130-147 | expanding a tile known at its true distance keeps every closed tile settled |
| PathSearch.Reconstruct | office-ui/src/office/navmesh.ts:118-125 | the parent chain ends at the start and is a path of as many steps as the tile's cost |
| PathSearch.TileSearch | office-ui/src/office/navmesh.ts:96-163 | on any grid: the goal is reached if and only if a path exists, by a shortest one; otherwise by a shortest path to a reachable tile of least Manhattan distance to the goal, empty exactly when that is the start; at most COLS * ROWS expansions |
| PathSearch.OfficeSearch | office-ui/src/office/navmesh.ts:106-111 | on the 25 by 25 map the guard of 20000 never decides |
| LineWalk.TileWalk | office-ui/src/office/navmesh.ts:51-77 | the walk ends for every pair of tiles, by king moves within their bounding box and at most half a tile off the line; it is clear exactly when no tile it visits is blocked, and then it ends at the far tile after Chebyshev-distance moves |
| LineWalk.FlatTurn | office-ui/src/office/navmesh.ts:64-76 | in a wide box every turn moves in x, moves in y only when there is room, and stays near the line |
| LineWalk.SteepTurn | office-ui/src/office/navmesh.ts:64-76 | the same in a high box, with the axes exchanged |
| LineWalk.SnapToWalkable | office-ui/src/office/navmesh.ts:30-44 | an open tile at least Chebyshev distance, or none if and only if every tile within the radius is blocked |
| Approvals.NoABA | src/seleric_swarm/conversations/phase7.py:420-430 | whenever a decision is accepted, however old the snapshot it was made on, the stored record it replaces equals that snapshot |
| Approvals.DecisionExact | src/seleric_swarm/conversations/phase7.py:621-663 | a decision is carried out if and only if the principal is entitled, status by status (workspace, role, ownership, write actions, dry run, transition), and the stored status is still the snapshot's; after the deadline everything but a cancel becomes an expiry; one record and one audit event are written |
| Approvals.ExecutedWasApproved | src/seleric_swarm/conversations/phase7.py:634-645 | behind every executed record of any execution there is a step that executed it with write actions enabled, and an earlier one in which someone with the required role or an administrator approved it |
| Approvals.CreateExact | src/seleric_swarm/conversations/phase7.py:382-399 | a request is stored with one audit event unless its owner already has one under the key |
| Approvals.AuditTrail | src/seleric_swarm/conversations/phase7.py:599-663 | every reachable audit log is a path of the transition graph from REQUESTED to the stored status with at most four events, an execution right after an approval |
| Approvals.AuditLength | src/seleric_swarm/conversations/phase7.py:599-608 | a path of the graph has at most four events, and its third is the only place for an execution |
| Approvals.KeysUnique | src/seleric_swarm/conversations/phase7.py:382-399 | an owner never has two approvals under one idempotency key |
| Approvals.History | src/seleric_swarm/conversations/phase7.py:611-663 | along any execution records only move up the graph, and the invariant holds |
| Approvals.TransitionsClimb | src/seleric_swarm/conversations/phase7.py:599-608 | every transition raises a rank: the graph is acyclic |
| Approvals.Repository.Create | src/seleric_swarm/conversations/phase7.py:382-399 | stores a new request with its first audit event, or returns the one registered under its key |
| Approvals.Repository.Replace | src/seleric_swarm/conversations/phase7.py:420-430 | writes record and audit event together exactly when the stored status is the expected one |
| Approvals.Repository.Decide | src/seleric_swarm/conversations/phase7.py:611-663 | a decision is done if and only if the principal is entitled to what would be stored and the stored status is still the snapshot's |
| Approvals.Repository.Sweep | src/seleric_swarm/conversations/phase7.py:803-826 | running alone, it expires everything due, counts it, leaves nothing due and changes nothing else |
| Approvals.ExpiryAccepted | src/seleric_swarm/conversations/phase7.py:806-823 | the system principal's expiry of a due approval is always accepted |
| RateLimiter.SlidingWindowRateLimiter.Allow | src/seleric_swarm/api/security.py:58-69 | the trimmed deque decides as the full history would: denied exactly when `limit` admissions of the key lie in the window that ends with the call; `remaining` is what the window has left, and the suggested wait is the true one rounded down, at least one second |
| RateLimiter.Trim | src/seleric_swarm/api/security.py:62-64 | the deque keeps exactly the admissions of the window |
| RateLimiter.NeverOverLimit | src/seleric_swarm/api/security.py:58-69 | for every call sequence in time order no window (a, a + window] holds more than `limit` admissions |
| RateLimiter.WindowBound | src/seleric_swarm/api/security.py:63-69 | admissions of which any limit + 1 in a row span the window never exceed the limit in any window |
| RateLimiter.AdmitKeepsSpacing | src/seleric_swarm/api/security.py:65-69 | admitting when fewer than `limit` admissions lie in the window keeps that spacing |
| RateLimiter.RetryEnough | src/seleric_swarm/api/security.py:65-67 | a denied caller who returns after the suggested wait, nobody else admitted, is let in if and only if rounding took nothing off |
| Base64.RoundTrip | src/seleric_swarm/conversations/memory.py:38-51 | decoding undoes encoding for every byte string |
| Base64.PadStrip | src/seleric_swarm/conversations/memory.py:40-47 | the stripped padding is restored from the length alone, and a non-empty text stays non-empty |
| Base64.GroupValue | src/seleric_swarm/conversations/memory.py:38-40 | three bytes in base 256 are four digits in base 64, highest first |
| Base64.Alphabet | src/seleric_swarm/conversations/memory.py:38-40 | the digits are written in the URL-safe alphabet |
| Pagination.CursorRoundTrip | src/seleric_swarm/conversations/memory.py:38-51 | a cursor handed out is read back as its key, never as "first page" and never refused |
| Pagination.Trichotomy | src/seleric_swarm/conversations/memory.py:122-125 | (time, id) keys are totally ordered |
| Pagination.KeyOrder | src/seleric_swarm/conversations/memory.py:122-125 | earlier comes before later; at the same moment ids decide at the first differing character, a prefix first |
| Pagination.CursorCases | src/seleric_swarm/conversations/memory.py:43-51 | no cursor or an empty one starts at the first page; one that cannot be read is refused |
| Pagination.OrderedLists | src/seleric_swarm/conversations/memory.py:179-187 | filtering and sorting lists exactly the matching items below the boundary, strictly descending |
| Pagination.PageIsHead | src/seleric_swarm/conversations/memory.py:187-192 | a page is the first max(1, limit) items of that listing, with a cursor if and only if there are more, and the cursor carries the last item's key |
| Pagination.EveryItemOnce | src/seleric_swarm/conversations/memory.py:176-192 | following cursors to the end while items are inserted anywhere returns every item present at the start exactly once, in descending order, and nothing that was not stored |
| Pagination.ReadFromTheStart | src/seleric_swarm/conversations/memory.py:176-192 | for a reader from the first page: newest first, every matching item present at the start once, and only matching items |
| Pagination.PagesAreTheSnapshot | src/seleric_swarm/conversations/memory.py:176-192 | when only newer items are inserted between reads, the pages together are exactly the listing at the first read |
| Pagination.FollowToTheEnd | src/seleric_swarm/conversations/memory.py:103-130 | on a store at rest the chain of cursors ends for every limit, its pages are full but the last, and together they are the whole listing |
| EventMapping.IdExact | src/seleric_swarm/conversations/event_mapping_v1.py:183-195 | within a run and attempt two mission events get the same id if and only if they have the same kind and the same positive number, or the same kind at the same place without one |
| EventMapping.OldKindsShowAsNew | src/seleric_swarm/conversations/event_mapping_v1.py:128-146 | a kind gets the type of its present-day name if and only if it is not `query_normalized` |
| EventMapping.EndingKinds | src/seleric_swarm/conversations/event_mapping_v1.py:128-146 | exactly four kinds map to the types that end a run |
| Ingestion.Ingest | src/seleric_swarm/conversations/events.py:233-247 | the loop appends the mapped, non-excluded events one by one, reports for each whether it was new, and, with the executor's exclusions, keeps the store's invariant |
| Ingestion.IngestTwice | src/seleric_swarm/conversations/events.py:233-247 | ingesting the same list again changes nothing |
| Ingestion.IngestAgainLater | src/seleric_swarm/conversations/events.py:233-247 | nor does it later, however the run's log has grown meanwhile |
| Ingestion.FirstIngest | src/seleric_swarm/conversations/event_mapping_v1.py:176-195 | a first ingest appends, in order, exactly the mapped, non-excluded events that do not share a positive number and kind with an earlier one |
| Ingestion.KeptBelongs | src/seleric_swarm/conversations/event_mapping_v1.py:191-200 | what is kept goes to the batch's run and thread under the type of its kind, none of them excluded |
| Ingestion.KeptIsComplete | src/seleric_swarm/conversations/events.py:243-246 | every event that is mapped, not excluded and no repetition of an earlier one is kept |
| Ingestion.IngestKeeps | src/seleric_swarm/api/conversations.py:1348-1358 | with the executor's exclusions, ingestion keeps run sequences increasing, thread sequences unique and the log free of terminal events |
| Budgets.Take | src/seleric_swarm/conversations/context.py:467-481 | first come, first served: exactly those values are taken that fit in what the earlier ones left; no budget is overdrawn, and nothing skipped would fit at the end |
| Budgets.GreedyTakes | src/seleric_swarm/conversations/context.py:471-480 | a text is taken if and only if, together with all taken before it, it stays within the source's budget and both totals |
| ContextBuilder.ScopedIsExact | src/seleric_swarm/conversations/context.py:434-446 | the candidates kept are exactly those in scope for the thread |
| ContextBuilder.ScopeKeepsApart | src/seleric_swarm/conversations/context.py:437-445 | scope by scope: user memories always, a project's only in its project, a thread's only in its thread |
| ContextBuilder.Deduplicate | src/seleric_swarm/conversations/context.py:447-456 | as an ordered dictionary would: one memory per (type, normal form), the first of those greatest by (pinned, updated_at), and every key is represented |
| ContextBuilder.BestIsGreatest | src/seleric_swarm/conversations/context.py:451-455 | the one kept is pinned if any is, and updated latest among those, the first of equals |
| ContextBuilder.KeyExact | src/seleric_swarm/conversations/context.py:449-449 | two memories share a key exactly when type and normal form agree |
| ContextBuilder.ByScoreRanks | src/seleric_swarm/conversations/context.py:459-462 | sorting by falling score keeps the members and their distinct keys |
| ContextBuilder.TiesKeepOrder | src/seleric_swarm/conversations/context.py:459-462 | memories of equal score keep the order in which they were offered |
| ContextBuilder.MemoriesAllowed | src/seleric_swarm/conversations/context.py:427-456 | chosen memories come from the candidates of an owner who has not opted out, from the thread's own scopes, and no two of one type have the same normal form |
| ContextBuilder.TakeMessages | src/seleric_swarm/conversations/context.py:504-509 | the chosen messages are the greedy choice from the newest, returned as a chronological subsequence |
| ContextBuilder.TakeText | src/seleric_swarm/conversations/context.py:513-520 | a single text is taken exactly when it fits its source and both totals |
| ContextBuilder.Build | src/seleric_swarm/conversations/context.py:464-578 | the rendered sizes and tokens of everything chosen sum exactly to the two counts, within the totals; each source keeps to its budget; permissions, messages, summary, memories, artifacts, configuration and provenance take their turns, each choosing greedily from exactly what all before it have left; messages are a subsequence, memories have distinct keys, are best of their key and ranked by score, none after an opt-out; nothing left out would still fit |

## Left out

- PostgreSQL and Redis adapters, asyncio scheduling, HTTP plumbing and calls to language models: foreign code. `run_once` and the heartbeat task appear as steps of an execution, not as tasks.
- `RunRepository.update` and `update_attempt`: they overwrite blindly and serve only inside submission.
- Payloads, titles, tenants and access checks of runs, threads and events: carried along, never decisive for the properties.
- Executions assume what callers provide: fresh run ids, a first attempt id drawn once, executors that report a terminal status and mark terminal ids on terminal events only, ordinary events of non-terminal types.
- Text of ordinary event ids is not shown to differ from that of terminal ones for arbitrary run ids.
- "The terminal event is last": false of the code, since an executor may append after a cancel.
- RunRepository.Repository.ListRecoverable: the order among equal start times is left open.
- Recovery.RecoverExpired: states the scan running alone; concurrent scans are covered step by step by the executions.
- Recovery.Settle: starts when the executor has returned; the re-read of the run before the commit only anticipates what the commit decides again.
- Threads' event streams, state callbacks, reconnect back-off and fatal response codes of the client.
- Frames without an id, for which the client falls back to a number inside the event's JSON: the server always prints one.
- Bytes and text decoding of the stream: the wire carries characters; events' JSON is text that is never empty and stays on one line.
- Reading `last-event-id` with signs, spaces or underscores: numbers are digit strings, as the client sends them.
- PathSearch.TileSearch: starts from different start and goal tiles, after snapping and the line-of-sight shortcut; ties among equal priorities are left open.
- LineWalk.TileWalk: covers the tile walk; the floating-point samples that follow it are left out, and the corner condition is void because it re-reads a tile just found open, so no claim about cutting corners is made.
- World coordinates, tile centres and the final goal point of a path.
- Approvals: role names are taken as lower-case; executor side effects and rollback records are foreign.
- Pagination: the JSON text of a cursor is a parameter that must read back what it writes; threads whose update time changes between reads can move across a boundary.
- Ingestion.Ingest: returns what became of each event instead of the stored events; trimming, lower-casing and number parsing of source fields are left to the caller.
- ContextBuilder.Build: token count, content normal form, score and rendering are parameters; memory ids are taken to be distinct, as the repository stores them.
- User-interface components, analytics arithmetic, settings validation, rank fusion and search: they would only add easy members.
