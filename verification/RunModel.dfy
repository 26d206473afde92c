/**
 The durable-run store as a value, and each repository operation as one atomic
 step on it. Every operation of the store runs under one lock, so a concurrent
 execution is a sequence of these steps.
 */
module RunModel {
  import opened Wrappers

  type Time = real
  type RunId = string
  type WorkerId = string

  datatype RunStatus = Queued | Running | Waiting | Completed | Failed | Cancelled
  datatype AttemptStatus =
    | Leased            // RUNNING: some worker holds it under a lease
    | Retryable
    | AttemptCompleted
    | AttemptFailed
    | AttemptCancelled

  /** Attempt 1 gets a random identifier, here named after the run it was drawn for;
      later attempts get one derived from the run and the number. */
  datatype AttemptId = First(run: RunId) | Retry(run: RunId, number: nat)

  datatype EventId =
    | TerminalOf(run: RunId, attempt: AttemptId)          // event_terminal_{run}_{attempt}
    | AttemptTerminal(run: RunId, attempt: AttemptId)     // event_{run}_{attempt}_terminal
    | CancelledOf(run: RunId)                             // event_{run}_cancelled
    | Ordinary(text: string)

  datatype EventType = RunCompleted | RunFailed | RunCancelled | Activity(name: string)

  datatype Run = Run(
    threadId: string,
    status: RunStatus,
    currentAttempt: nat,
    maxAttempts: nat,
    retryCount: nat,
    nextRetryAt: Option<Time>,
    cancelRequestedAt: Option<Time>,
    startedAt: Option<Time>,
    completedAt: Option<Time>)

  datatype Attempt = Attempt(
    id: AttemptId,
    runId: RunId,
    number: nat,
    status: AttemptStatus,
    workerId: Option<WorkerId>,
    leaseExpiresAt: Option<Time>,
    heartbeatAt: Option<Time>,
    retryable: bool,
    version: nat,
    errorCode: Option<string>,
    startedAt: Time,
    completedAt: Option<Time>)

  datatype Event = Event(
    id: EventId,
    runId: RunId,
    threadId: string,
    sequence: nat,
    threadSequence: nat,
    eventType: EventType,
    completedAt: Option<Time>)

  datatype State = State(
    runs: map<RunId, Run>,
    attempts: map<AttemptId, Attempt>,
    events: map<RunId, seq<Event>>,
    outbox: map<RunId, bool>)

  predicate Terminal(s: RunStatus) {
    s.Completed? || s.Failed? || s.Cancelled?
  }

  predicate Live(s: AttemptStatus) {
    s.Leased? || s.Retryable?
  }

  predicate TerminalType(t: EventType) {
    !t.Activity?
  }

  predicate TerminalId(id: EventId) {
    !id.Ordinary?
  }

  function TypeFor(s: RunStatus): EventType {
    match s
    case Completed => RunCompleted
    case Cancelled => RunCancelled
    case _ => RunFailed
  }

  function AttemptStatusFor(s: RunStatus): AttemptStatus {
    match s
    case Completed => AttemptCompleted
    case Cancelled => AttemptCancelled
    case _ => AttemptFailed
  }

  function MaxReal(a: real, b: real): real {
    if a < b then b else a
  }

  // ---------------------------------------------------------------- the log

  function Log(events: map<RunId, seq<Event>>, r: RunId): seq<Event> {
    if r in events then events[r] else []
  }

  function LastSequence(log: seq<Event>): nat {
    if log == [] then 0 else log[|log| - 1].sequence
  }

  predicate HasId(log: seq<Event>, id: EventId) {
    exists i :: 0 <= i < |log| && log[i].id == id
  }

  /** The thread sequences in use for one thread, over the logs of all runs. */
  ghost predicate ThreadSequenceUsed(events: map<RunId, seq<Event>>, thread: string, n: nat) {
    exists r, i :: InLog(events, r, i) && events[r][i].threadId == thread && events[r][i].threadSequence == n
  }

  predicate InLog(events: map<RunId, seq<Event>>, r: RunId, i: int) {
    r in events && 0 <= i < |events[r]|
  }

  /** `n` is the largest thread sequence in use, or 0 when there is none. */
  ghost predicate IsMaxThreadSequence(events: map<RunId, seq<Event>>, thread: string, n: nat) {
    && (n == 0 || ThreadSequenceUsed(events, thread, n))
    && (forall r, i :: InLog(events, r, i) && events[r][i].threadId == thread ==> events[r][i].threadSequence <= n)
  }

  /** Appends an event to the log of `r` with the next run and thread sequence. */
  ghost function AppendNext(s: State, r: RunId, e: Event): (s': State)
  {
    PlaceNext(s, r, e.(sequence := LastSequence(Log(s.events, r)) + 1))
  }

  /** Appends an event whose run sequence is already settled. */
  ghost function PlaceNext(s: State, r: RunId, e: Event): (s': State)
  {
    MaxThreadSequenceExists(s.events, e.threadId);
    var n: nat :| IsMaxThreadSequence(s.events, e.threadId, n);
    s.(events := s.events[r := Log(s.events, r) + [e.(threadSequence := n + 1)]])
  }

  lemma {:induction false} MaxThreadSequenceExists(events: map<RunId, seq<Event>>, thread: string)
    ensures exists n: nat :: IsMaxThreadSequence(events, thread, n)
    decreases |events|
  {
    if events == map[] {
      assert IsMaxThreadSequence(events, thread, 0);
    } else {
      var r :| r in events;
      var rest := events - {r};
      MaxThreadSequenceExists(rest, thread);
      var m: nat :| IsMaxThreadSequence(rest, thread, m);
      assert forall q, i :: InLog(rest, q, i) ==> InLog(events, q, i) && events[q][i] == rest[q][i];
      assert ThreadSequenceUsed(rest, thread, m) ==> ThreadSequenceUsed(events, thread, m);
      var i := 0;
      while i < |events[r]|
        invariant 0 <= i <= |events[r]|
        invariant m == 0 || ThreadSequenceUsed(events, thread, m)
        invariant forall q, j :: InLog(rest, q, j) && rest[q][j].threadId == thread ==> rest[q][j].threadSequence <= m
        invariant forall j :: 0 <= j < i && events[r][j].threadId == thread ==> events[r][j].threadSequence <= m
      {
        if events[r][i].threadId == thread && m < events[r][i].threadSequence {
          m := events[r][i].threadSequence;
          assert InLog(events, r, i);
        }
        i := i + 1;
      }
      forall q, j | InLog(events, q, j) && events[q][j].threadId == thread
        ensures events[q][j].threadSequence <= m
      {
        assert q != r ==> InLog(rest, q, j);
      }
      assert IsMaxThreadSequence(events, thread, m);
    }
  }

  lemma MaxThreadSequenceUnique(events: map<RunId, seq<Event>>, thread: string, m: nat, n: nat)
    requires IsMaxThreadSequence(events, thread, m) && IsMaxThreadSequence(events, thread, n)
    ensures m == n
  {
  }

  // ------------------------------------------------------------------ steps

  /** Submission: the run, its first attempt and its outbox row in one transaction. */
  ghost function Submit(s: State, r: RunId, thread: string, maxAttempts: nat, retryable: bool, now: Time): State
  {
    s.(runs := s.runs[r := Run(thread, Queued, 1, maxAttempts, 0, None, None, None, None)],
       attempts := s.attempts[First(r) :=
         Attempt(First(r), r, 1, Retryable, None, None, None, retryable, 0, None, now, None)],
       outbox := if r in s.outbox then s.outbox else s.outbox[r := false])
  }

  /** `k` is an attempt of `r` with the highest number. */
  ghost predicate IsNewest(s: State, r: RunId, k: AttemptId) {
    && k in s.attempts
    && s.attempts[k].runId == r
    && (forall k' :: k' in s.attempts && s.attempts[k'].runId == r ==> s.attempts[k'].number <= s.attempts[k].number)
  }

  predicate Claimable(a: Attempt, now: Time) {
    || a.status.Retryable?
    || (a.status.Leased? && (a.workerId.None? || a.leaseExpiresAt.None? || a.leaseExpiresAt.value <= now))
  }

  function Claimed(a: Attempt, worker: WorkerId, lease: Time, now: Time): Attempt {
    a.(status := Leased, workerId := Some(worker), heartbeatAt := Some(now),
       leaseExpiresAt := Some(now + lease), version := a.version + 1)
  }

  ghost function Claim(s: State, r: RunId, worker: WorkerId, lease: Time, now: Time): (res: (State, Option<Attempt>))
  {
    if exists k :: IsNewest(s, r, k) then
      var k :| IsNewest(s, r, k);
      if Claimable(s.attempts[k], now) then
        var a := Claimed(s.attempts[k], worker, lease, now);
        (s.(attempts := s.attempts[k := a]), Some(a))
      else (s, None)
    else (s, None)
  }

  predicate Renewable(s: State, k: AttemptId, worker: WorkerId, expectedVersion: Option<nat>, now: Time) {
    && k in s.attempts
    && s.attempts[k].status.Leased?
    && s.attempts[k].workerId == Some(worker)
    && (expectedVersion.None? || s.attempts[k].version == expectedVersion.value)
    && (s.attempts[k].leaseExpiresAt.None? || s.attempts[k].leaseExpiresAt.value > now)
  }

  function Heartbeat(s: State, k: AttemptId, worker: WorkerId, lease: Time, expectedVersion: Option<nat>, now: Time): (State, bool)
  {
    if Renewable(s, k, worker, expectedVersion, now) then
      (s.(attempts := s.attempts[k := s.attempts[k].(heartbeatAt := Some(now), leaseExpiresAt := Some(now + lease))]), true)
    else (s, false)
  }

  /** The status compare-and-set. */
  function SetStatus(s: State, r: RunId, expected: set<RunStatus>, status: RunStatus, now: Time): (State, bool)
  {
    if r in s.runs && s.runs[r].status in expected then
      var run := s.runs[r];
      var run' := run.(
        status := status,
        startedAt := if status.Running? && run.startedAt.None? then Some(now) else run.startedAt,
        completedAt := if Terminal(status) then Some(now) else None,
        nextRetryAt := if Terminal(status) then None else run.nextRetryAt);
      (s.(runs := s.runs[r := run']), true)
    else (s, false)
  }

  predicate LeaseExpiredBy(a: Attempt, before: Option<Time>) {
    before.None? || (a.leaseExpiresAt.Some? && a.leaseExpiresAt.value <= before.value)
  }

  /** The attempt compare-and-set, as the recovery scan uses it: leased to cancelled. */
  function ReapCancelled(s: State, k: AttemptId, version: nat, before: Time, now: Time): State
  {
    if k in s.attempts && s.attempts[k].status.Leased? && s.attempts[k].version == version
       && LeaseExpiredBy(s.attempts[k], Some(before)) then
      s.(attempts := s.attempts[k := s.attempts[k].(status := AttemptCancelled, errorCode := Some("CANCELLED"),
                                                    completedAt := Some(now), leaseExpiresAt := None, version := version + 1)])
    else s
  }

  predicate HoldsToken(s: State, k: AttemptId, worker: WorkerId, version: nat) {
    && k in s.attempts
    && s.attempts[k].status.Leased?
    && s.attempts[k].workerId == Some(worker)
    && s.attempts[k].version == version
  }

  function Closed(a: Attempt, status: AttemptStatus, code: Option<string>, now: Time): Attempt {
    a.(status := status, errorCode := code, completedAt := Some(now), leaseExpiresAt := None, version := a.version + 1)
  }

  function Published(outbox: map<RunId, bool>, r: RunId): map<RunId, bool> {
    if r in outbox then outbox[r := true] else outbox
  }

  function FinalStatus(run: Run, requested: RunStatus): RunStatus {
    if run.status.Cancelled? then Cancelled else requested
  }

  /** An event of the log that stands for the terminal event about to be written. */
  predicate Duplicates(log: seq<Event>, id: EventId, final: RunStatus) {
    exists i :: 0 <= i < |log| && (log[i].id == id || (final.Cancelled? && log[i].eventType.RunCancelled?))
  }

  /** The state after a worker's outcome is committed: attempt, run, event and outbox together. */
  ghost function Committed(s: State, k: AttemptId, final: RunStatus, draft: Event, code: Option<string>, now: Time): State
    requires k in s.attempts && s.attempts[k].runId in s.runs
  {
    var a, r := s.attempts[k], s.attempts[k].runId;
    var event := draft.(eventType := TypeFor(final), completedAt := Some(now));
    var logged :=
      if Duplicates(Log(s.events, r), event.id, final) then s.(events := s.events[r := Log(s.events, r)])
      else AppendNext(s, r, event);
    logged.(
      attempts := s.attempts[k := Closed(a, AttemptStatusFor(final), code, now)],
      runs := s.runs[r := s.runs[r].(status := final, completedAt := Some(now), nextRetryAt := None)],
      outbox := Published(s.outbox, r))
  }

  ghost function Finalize(s: State, k: AttemptId, worker: WorkerId, version: nat, requested: RunStatus,
                          draft: Event, code: Option<string>, now: Time): (State, bool)
  {
    if !HoldsToken(s, k, worker, version) || s.attempts[k].runId !in s.runs then (s, false)
    else
      var run := s.runs[s.attempts[k].runId];
      if run.status.Completed? || run.status.Failed? then (s, false)
      else (Committed(s, k, FinalStatus(run, requested), draft, code, now), true)
  }

  datatype FailOutcome = Stale | RunWasCancelled | FailedForGood | WillRetry

  predicate FailAccepted(s: State, k: AttemptId, worker: Option<WorkerId>, version: nat, before: Option<Time>) {
    && k in s.attempts
    && s.attempts[k].status.Leased?
    && s.attempts[k].version == version
    && (worker.None? || s.attempts[k].workerId == worker)
    && LeaseExpiredBy(s.attempts[k], before)
    && s.attempts[k].runId in s.runs
  }

  /** The state after the last attempt failed: the run fails with it. */
  ghost function GivenUp(s: State, k: AttemptId, code: string, now: Time): State
    requires k in s.attempts && s.attempts[k].runId in s.runs
  {
    var a, r := s.attempts[k], s.attempts[k].runId;
    var event := Event(TerminalOf(r, k), r, s.runs[r].threadId, 0, 0, RunFailed, Some(now));
    var logged := if HasId(Log(s.events, r), event.id) then s.(events := s.events[r := Log(s.events, r)]) else AppendNext(s, r, event);
    logged.(
      attempts := s.attempts[k := Closed(a, AttemptFailed, Some(code), now)],
      runs := s.runs[r := s.runs[r].(status := RunStatus.Failed, completedAt := Some(now), nextRetryAt := None)],
      outbox := Published(s.outbox, r))
  }

  function Successor(a: Attempt, now: Time): Attempt {
    var next := Retry(a.runId, a.number + 1);
    Attempt(next, a.runId, a.number + 1, Retryable, None, None, None, a.retryable, 0, None, now, None)
  }

  function Requeued(run: Run, number: nat, delay: Time, now: Time): Run
    requires run.maxAttempts >= 1
  {
    run.(status := Queued,
         currentAttempt := number,
         retryCount := if run.retryCount + 1 < run.maxAttempts then run.retryCount + 1 else run.maxAttempts - 1,
         nextRetryAt := Some(now + MaxReal(0.0, delay)))
  }

  /** The state after a failure with attempts left: the successor is scheduled. */
  function Rescheduled(s: State, k: AttemptId, code: string, delay: Time, now: Time): State
    requires k in s.attempts && s.attempts[k].runId in s.runs && s.runs[s.attempts[k].runId].maxAttempts >= 1
  {
    var a, r := s.attempts[k], s.attempts[k].runId;
    var failed := s.attempts[k := Closed(a, AttemptFailed, Some(code), now)];
    var next := Retry(r, a.number + 1);
    s.(attempts := if next in failed then failed else failed[next := Successor(a, now)],
       runs := s.runs[r := Requeued(s.runs[r], a.number + 1, delay, now)])
  }

  /** Fails one fenced attempt and either schedules its successor or fails the run. */
  ghost function Fail(s: State, k: AttemptId, worker: Option<WorkerId>, version: nat, before: Option<Time>,
                      now: Time, delay: Time, code: string): (State, FailOutcome)
  {
    if !FailAccepted(s, k, worker, version, before) then (s, Stale)
    else
      var a, run := s.attempts[k], s.runs[s.attempts[k].runId];
      if run.status.Cancelled? then
        (s.(attempts := s.attempts[k := Closed(a, AttemptCancelled, a.errorCode, now)]), RunWasCancelled)
      else if !a.retryable || a.number >= run.maxAttempts then (GivenUp(s, k, code, now), FailedForGood)
      else (Rescheduled(s, k, code, delay, now), WillRetry)
  }

  function CancelAttempts(attempts: map<AttemptId, Attempt>, r: RunId, now: Time): map<AttemptId, Attempt>
  {
    map k | k in attempts ::
      if attempts[k].runId == r && Live(attempts[k].status)
      then Closed(attempts[k], AttemptCancelled, attempts[k].errorCode, now)
      else attempts[k]
  }

  /** A user's cancellation; `draft` is the terminal event, absent for an internal cancel. */
  ghost function Cancel(s: State, r: RunId, draft: Option<Event>, now: Time): (State, bool)
  {
    if r !in s.runs || Terminal(s.runs[r].status) then (s, false)
    else
      var logged :=
        if draft.None? then s
        else if HasId(Log(s.events, r), draft.value.id) then s.(events := s.events[r := Log(s.events, r)])
        else AppendNext(s, r, draft.value.(completedAt := Some(now)));
      (logged.(
         runs := s.runs[r := s.runs[r].(status := Cancelled, cancelRequestedAt := Some(now), completedAt := Some(now))],
         attempts := CancelAttempts(s.attempts, r, now),
         outbox := Published(s.outbox, r)), true)
  }

  datatype AppendOutcome = Appended | AlreadyThere | OutOfOrder

  /** The general append: deduplicated by identifier, monotone in the run sequence. */
  ghost function AppendEvent(s: State, e: Event): (State, AppendOutcome)
  {
    var r := e.runId;
    var log := Log(s.events, r);
    var touched := s.(events := s.events[r := log]);
    if HasId(log, e.id) then (touched, AlreadyThere)
    else if e.sequence == 0 then (AppendNext(s, r, e), Appended)
    else if e.sequence <= LastSequence(log) then (touched, OutOfOrder)
    else (PlaceNext(s, r, e), Appended)
  }

  function MarkPublished(s: State, r: RunId): State {
    s.(outbox := Published(s.outbox, r))
  }

  /** Attempts the recovery scan lists at `now`, before ordering and truncation. */
  predicate Recoverable(s: State, k: AttemptId, now: Time) {
    && k in s.attempts
    && s.attempts[k].runId in s.runs
    && var a := s.attempts[k];
       var run := s.runs[a.runId];
       && (run.status.Queued? || run.status.Running?)
       && (run.nextRetryAt.None? || run.nextRetryAt.value <= now)
       && (a.status.Retryable? || (a.status.Leased? && a.leaseExpiresAt.Some? && a.leaseExpiresAt.value <= now))
  }

  predicate Lists(listed: seq<Attempt>, k: AttemptId) {
    exists i :: 0 <= i < |listed| && listed[i].id == k
  }

  lemma ListsSnoc(listed: seq<Attempt>, a: Attempt, k: AttemptId)
    ensures Lists(listed + [a], k) <==> Lists(listed, k) || a.id == k
  {
    if Lists(listed, k) {
      var i :| 0 <= i < |listed| && listed[i].id == k;
      assert (listed + [a])[i].id == k;
    }
    assert (listed + [a])[|listed|] == a;
  }

  const Empty: State := State(map[], map[], map[], map[])
}
