/**
 What each step of the durable-run store does, in the terms of its callers: when it is
 accepted, and which fields of which records it changes. Every statement spells its values
 out, so that it holds the step functions to the protocol from outside.
 */
module RunEffects {
  import opened Wrappers
  import opened RunModel
  import opened RunInvariant
  import opened RunSteps

  ghost predicate SameRuns(runs: Runs, runs': Runs, r: RunId) {
    forall q :: q != r ==> (q in runs' <==> q in runs) && (q in runs ==> runs'[q] == runs[q])
  }

  ghost predicate SameAttempts(attempts: Attempts, attempts': Attempts, r: RunId) {
    forall k: AttemptId :: k.run != r ==> (k in attempts' <==> k in attempts) && (k in attempts ==> attempts'[k] == attempts[k])
  }

  ghost predicate SameLogs(logs: Logs, logs': Logs, r: RunId) {
    forall q :: q != r ==> Log(logs', q) == Log(logs, q)
  }

  ghost predicate SameOutbox(outbox: map<RunId, bool>, outbox': map<RunId, bool>, r: RunId) {
    forall q :: q != r ==> (q in outbox' <==> q in outbox) && (q in outbox ==> outbox'[q] == outbox[q])
  }

  /** Nothing but the records of run `r` differs. */
  ghost predicate OnlyRun(s: State, s': State, r: RunId) {
    && SameRuns(s.runs, s'.runs, r) && SameAttempts(s.attempts, s'.attempts, r)
    && SameLogs(s.events, s'.events, r) && SameOutbox(s.outbox, s'.outbox, r)
  }

  lemma RunWritten(runs: Runs, r: RunId, run: Run)
    ensures SameRuns(runs, runs, r) && SameRuns(runs, runs[r := run], r)
  {
  }

  lemma AttemptWritten(attempts: Attempts, k: AttemptId, a: Attempt)
    ensures SameAttempts(attempts, attempts, k.run) && SameAttempts(attempts, attempts[k := a], k.run)
  {
  }

  lemma LogWritten(logs: Logs, r: RunId, log: seq<Event>)
    ensures SameLogs(logs, logs, r) && SameLogs(logs, logs[r := log], r) && Log(logs[r := log], r) == log
  {
  }

  lemma OutboxWritten(outbox: map<RunId, bool>, r: RunId)
    ensures SameOutbox(outbox, outbox, r) && SameOutbox(outbox, Published(outbox, r), r)
    ensures (r in Published(outbox, r) <==> r in outbox) && (r in outbox ==> Published(outbox, r)[r])
  {
  }

  /** The log of `r` gains one event, next in the run and in the thread. */
  ghost predicate Logged(s: State, s': State, r: RunId, e: Event) {
    && Log(s'.events, r) == Log(s.events, r) + [e]
    && e.sequence == (if Log(s.events, r) == [] then 1 else Log(s.events, r)[|Log(s.events, r)| - 1].sequence + 1)
    && e.threadSequence >= 1 && IsMaxThreadSequence(s.events, e.threadId, e.threadSequence - 1)
  }

  /** The event that AppendNext writes. */
  lemma AppendedNext(s: State, r: RunId, draft: Event) returns (e: Event)
    ensures AppendNext(s, r, draft) == s.(events := s.events[r := Log(s.events, r) + [e]])
    ensures e == draft.(sequence := e.sequence, threadSequence := e.threadSequence)
    ensures forall s': State :: s'.events == s.events[r := Log(s.events, r) + [e]] ==> Logged(s, s', r, e)
  {
    e := PlacedLast(s, r, draft.(sequence := LastSequence(Log(s.events, r)) + 1));
    forall s': State | s'.events == s.events[r := Log(s.events, r) + [e]] ensures Logged(s, s', r, e) {
      LogWritten(s.events, r, Log(s.events, r) + [e]);
    }
  }

  // --------------------------------------------------------------- the steps

  /** A submitted run waits for its first attempt of `maxAttempts`, with its outbox row pending. */
  lemma SubmitEffect(s: State, r: RunId, thread: string, maxAttempts: nat, retryable: bool, now: Time)
    requires Inv(s) && r !in s.runs && maxAttempts >= 1
    ensures var s' := Submit(s, r, thread, maxAttempts, retryable, now);
      && OnlyRun(s, s', r) && r in s'.runs && First(r) in s'.attempts
      && s'.runs[r].status.Queued? && s'.runs[r].threadId == thread && s'.runs[r].maxAttempts == maxAttempts
      && s'.runs[r].currentAttempt == 1 && s'.runs[r].retryCount == 0 && s'.runs[r].nextRetryAt.None?
      && s'.attempts[First(r)].status.Retryable? && s'.attempts[First(r)].number == 1 && s'.attempts[First(r)].retryable == retryable
      && s'.attempts[First(r)].startedAt == now
      && Log(s'.events, r) == Log(s.events, r)
      && r in s'.outbox && (r !in s.outbox ==> !s'.outbox[r])
  {
    hide AttemptsInv, LogsInv, ThreadsInv, OutboxInv;
  }

  /** A submitted run can be claimed at once, by anyone. */
  lemma SubmittedIsClaimable(s: State, r: RunId, thread: string, maxAttempts: nat, retryable: bool, now: Time,
                             worker: WorkerId, lease: Time, t: Time)
    requires Inv(s) && r !in s.runs && maxAttempts >= 1
    ensures Claim(Submit(s, r, thread, maxAttempts, retryable, now), r, worker, lease, t).1.Some?
  {
    hide LogsInv, ThreadsInv, OutboxInv, Claim, Submit;
    SubmitKeeps(s, r, thread, maxAttempts, retryable, now);
    SubmitEffect(s, r, thread, maxAttempts, retryable, now);
    ClaimGrants(Submit(s, r, thread, maxAttempts, retryable, now), r, worker, lease, t);
  }

  /** A claim is granted exactly when the run's current attempt waits or its lease has run out;
      it gives the worker that attempt until `now + lease`, under the next version. */
  lemma ClaimGrants(s: State, r: RunId, worker: WorkerId, lease: Time, now: Time)
    requires Inv(s)
    ensures var (s', granted) := Claim(s, r, worker, lease, now);
      && (granted.Some? <==>
            && r in s.runs
            && var a := s.attempts[IdOf(r, s.runs[r].currentAttempt)];
               a.status.Retryable? || (a.status.Leased? && a.leaseExpiresAt.value <= now))
      && (granted.None? ==> s' == s)
      && (granted.Some? ==>
            var k, a := IdOf(r, s.runs[r].currentAttempt), granted.value;
            && s' == s.(attempts := s.attempts[k := a])
            && a.id == k && a.number == s.runs[r].currentAttempt && a.runId == r
            && a.status.Leased? && a.workerId == Some(worker)
            && a.leaseExpiresAt == Some(now + lease) && a.heartbeatAt == Some(now)
            && a.version == s.attempts[k].version + 1
            && a.retryable == s.attempts[k].retryable && a.startedAt == s.attempts[k].startedAt)
  {
    hide LogsInv, ThreadsInv, OutboxInv, Claim;
    ClaimEffect(s, r, worker, lease, now);
    if r in s.runs {
      var k := IdOf(r, s.runs[r].currentAttempt);
      assert RunFits(s.runs[r]);
      assert k in s.attempts && AttemptFits(k, s.attempts[k], s.runs[r]);
    }
  }

  /** A heartbeat is accepted exactly from the holder of the current token before its lease runs
      out; it moves the end of the lease to `now + lease` and nothing else. */
  lemma HeartbeatRenews(s: State, k: AttemptId, worker: WorkerId, lease: Time, version: nat, now: Time)
    requires Inv(s)
    ensures var (s', renewed) := Heartbeat(s, k, worker, lease, Some(version), now);
      && (renewed <==>
            && k in s.attempts && s.attempts[k].status.Leased? && s.attempts[k].workerId == Some(worker)
            && s.attempts[k].version == version && now < s.attempts[k].leaseExpiresAt.value)
      && (!renewed ==> s' == s)
      && (renewed ==>
            && k in s'.attempts && s'.attempts[k].leaseExpiresAt == Some(now + lease) && s'.attempts[k].heartbeatAt == Some(now)
            && s' == s.(attempts := s.attempts[k := s'.attempts[k]])
            && s'.attempts[k].(leaseExpiresAt := None, heartbeatAt := None) == s.attempts[k].(leaseExpiresAt := None, heartbeatAt := None))
  {
    hide LogsInv, ThreadsInv, OutboxInv;
    if k in s.attempts {
      assert AttemptFits(k, s.attempts[k], s.runs[k.run]);
    }
  }

  /** Starting succeeds exactly on a queued run, and remembers the first time only. */
  lemma StartEffect(s: State, r: RunId, now: Time)
    ensures var (s', started) := SetStatus(s, r, {Queued}, Running, now);
      && (started <==> r in s.runs && s.runs[r].status.Queued?)
      && (!started ==> s' == s)
      && (started ==>
            && s' == s.(runs := s'.runs) && s'.runs == s.runs[r := s'.runs[r]]
            && s'.runs[r].status.Running? && s'.runs[r].completedAt.None?
            && (s.runs[r].startedAt.None? ==> s'.runs[r].startedAt == Some(now))
            && (s.runs[r].startedAt.Some? ==> s'.runs[r].startedAt == s.runs[r].startedAt)
            && s'.runs[r].nextRetryAt == s.runs[r].nextRetryAt && s'.runs[r].currentAttempt == s.runs[r].currentAttempt
            && s'.runs[r].retryCount == s.runs[r].retryCount && s'.runs[r].maxAttempts == s.runs[r].maxAttempts)
  {
  }

  /** A commit by the holder ends run and attempt alike, and logs the one event that says so. */
  lemma CommitEffect(s: State, k: AttemptId, worker: WorkerId, version: nat, requested: RunStatus,
                     draft: Event, code: Option<string>, now: Time) returns (e: Event)
    requires Inv(s) && Terminal(requested) && TerminalId(draft.id)
    requires k in s.attempts && s.attempts[k].status.Leased? && s.attempts[k].workerId == Some(worker) && s.attempts[k].version == version
    ensures var (s', committed) := Finalize(s, k, worker, version, requested, draft, code, now);
      var r := k.run;
      && committed && OnlyRun(s, s', r) && r in s'.runs && k in s'.attempts
      && s'.runs[r].status == requested && s'.runs[r].completedAt == Some(now) && s'.runs[r].nextRetryAt.None?
      && (requested.Completed? ==> s'.attempts[k].status.AttemptCompleted? && e.eventType.RunCompleted?)
      && (requested.Failed? ==> s'.attempts[k].status.AttemptFailed? && e.eventType.RunFailed?)
      && (requested.Cancelled? ==> s'.attempts[k].status.AttemptCancelled? && e.eventType.RunCancelled?)
      && s'.attempts[k].version == version + 1 && s'.attempts[k].leaseExpiresAt.None? && s'.attempts[k].errorCode == code
      && s'.attempts[k].completedAt == Some(now)
      && s'.attempts == s.attempts[k := s'.attempts[k]]
      && Logged(s, s', r, e) && e.id == draft.id && e.threadId == draft.threadId && e.completedAt == Some(now)
      && (r in s.outbox ==> r in s'.outbox && s'.outbox[r])
  {
    hide Inv, Finalize, Logged, Log, IsMaxThreadSequence, SameRuns, SameAttempts, SameLogs, SameOutbox;
    e := CommitState(s, k, worker, version, requested, draft, code, now);
    RunWritten(s.runs, k.run, Finalize(s, k, worker, version, requested, draft, code, now).0.runs[k.run]);
    AttemptWritten(s.attempts, k, Finalize(s, k, worker, version, requested, draft, code, now).0.attempts[k]);
    LogWritten(s.events, k.run, Log(s.events, k.run) + [e]);
    OutboxWritten(s.outbox, k.run);
  }

  lemma CommitState(s: State, k: AttemptId, worker: WorkerId, version: nat, requested: RunStatus,
                    draft: Event, code: Option<string>, now: Time) returns (e: Event)
    requires Inv(s) && Terminal(requested) && TerminalId(draft.id)
    requires k in s.attempts && s.attempts[k].status.Leased? && s.attempts[k].workerId == Some(worker) && s.attempts[k].version == version
    ensures k.run in s.runs && Finalize(s, k, worker, version, requested, draft, code, now) ==
      (State(s.runs[k.run := s.runs[k.run].(status := requested, completedAt := Some(now), nextRetryAt := None)],
             s.attempts[k := Closed(s.attempts[k], AttemptStatusFor(requested), code, now)],
             s.events[k.run := Log(s.events, k.run) + [e]], Published(s.outbox, k.run)), true)
    ensures e == draft.(eventType := TypeFor(requested), completedAt := Some(now), sequence := e.sequence, threadSequence := e.threadSequence)
    ensures forall s': State :: s'.events == s.events[k.run := Log(s.events, k.run) + [e]] ==> Logged(s, s', k.run, e)
  {
    hide LogsInv, ThreadsInv, OutboxInv, AppendNext, Log, Logged;
    LiveIsCurrent(s.runs, s.attempts, k);
    assert AttemptFits(k, s.attempts[k], s.runs[k.run]);
    NoTerminalYet(s.runs, s.events, k.run);
    e := AppendedNext(s, k.run, draft.(eventType := TypeFor(requested), completedAt := Some(now)));
  }

  /** The token that a failure report must present. */
  predicate Presents(s: State, k: AttemptId, worker: Option<WorkerId>, version: nat, before: Option<Time>) {
    && k in s.attempts && s.attempts[k].status.Leased? && s.attempts[k].version == version
    && (worker.Some? ==> s.attempts[k].workerId == worker)
    && (before.Some? ==> s.attempts[k].leaseExpiresAt.Some? && s.attempts[k].leaseExpiresAt.value <= before.value)
  }

  /** A failed attempt is followed by the next one exactly when it may be retried and is not the
      last; the run then waits for the delay. Otherwise the run fails. */
  lemma FailDecides(s: State, k: AttemptId, worker: Option<WorkerId>, version: nat, before: Option<Time>,
                    now: Time, delay: Time, code: string)
    requires Inv(s)
    ensures var (s', outcome) := Fail(s, k, worker, version, before, now, delay, code);
      && (!Presents(s, k, worker, version, before) ==> outcome.Stale? && s' == s)
      && (Presents(s, k, worker, version, before) ==>
            var a, run := s.attempts[k], s.runs[k.run];
            && a.number == run.currentAttempt
            && outcome == (if a.retryable && a.number < run.maxAttempts then WillRetry else FailedForGood)
            && OnlyRun(s, s', k.run) && k in s'.attempts && k.run in s'.runs
            && s'.attempts[k].status.AttemptFailed? && s'.attempts[k].errorCode == Some(code)
            && s'.attempts[k].version == version + 1 && s'.attempts[k].leaseExpiresAt.None? && s'.attempts[k].completedAt == Some(now))
  {
    hide AttemptsInv, LogsInv, ThreadsInv, OutboxInv, GivenUp, Rescheduled, AttemptFits, OnlyRun;
    if Presents(s, k, worker, version, before) {
      LiveIsCurrent(s.runs, s.attempts, k);
      Fits(s, k);
      GivenUpOnly(s, k, code, now);
      if s.attempts[k].number < s.runs[k.run].maxAttempts {
        RescheduledOnly(s, k, code, delay, now);
      }
    }
  }

  lemma Counted(s: State, r: RunId)
    requires Inv(s) && r in s.runs
    ensures s.runs[r].retryCount == s.runs[r].currentAttempt - 1
  {
    assert RunFits(s.runs[r]);
  }

  lemma Fits(s: State, k: AttemptId)
    requires Inv(s) && k in s.attempts
    ensures k.run in s.runs && AttemptFits(k, s.attempts[k], s.runs[k.run]) && s.attempts[k].runId == k.run
    ensures 1 <= s.attempts[k].number == NumberOf(k)
    ensures s.attempts[k].number <= s.runs[k.run].currentAttempt <= s.runs[k.run].maxAttempts
    ensures Live(s.attempts[k].status) ==> s.attempts[k].number == s.runs[k.run].currentAttempt && !Terminal(s.runs[k.run].status)
  {
    hide LogsInv, ThreadsInv, OutboxInv;
    assert RunFits(s.runs[k.run]);
  }

  lemma GivenUpOnly(s: State, k: AttemptId, code: string, now: Time)
    requires k in s.attempts && k.run in s.runs && s.attempts[k].runId == k.run
    ensures var s' := GivenUp(s, k, code, now);
      && OnlyRun(s, s', k.run) && k in s'.attempts && k.run in s'.runs
      && s'.attempts[k].status.AttemptFailed? && s'.attempts[k].errorCode == Some(code)
      && s'.attempts[k].version == s.attempts[k].version + 1 && s'.attempts[k].leaseExpiresAt.None? && s'.attempts[k].completedAt == Some(now)
  {
    hide AppendNext, HasId, Log, SameRuns, SameAttempts, SameLogs, SameOutbox, Logged, Published;
    var r := k.run;
    var e := AppendedNext(s, r, Event(TerminalOf(r, k), r, s.runs[r].threadId, 0, 0, RunFailed, Some(now)));
    var s' := GivenUp(s, k, code, now);
    RunWritten(s.runs, r, s'.runs[r]);
    AttemptWritten(s.attempts, k, s'.attempts[k]);
    LogWritten(s.events, r, Log(s.events, r) + [e]);
    LogWritten(s.events, r, Log(s.events, r));
    OutboxWritten(s.outbox, r);
  }

  lemma RescheduledOnly(s: State, k: AttemptId, code: string, delay: Time, now: Time)
    requires k in s.attempts && k.run in s.runs && s.attempts[k].runId == k.run && s.runs[k.run].maxAttempts >= 1
    requires s.attempts[k].number >= 1 && NumberOf(k) == s.attempts[k].number
    ensures var s' := Rescheduled(s, k, code, delay, now);
      && OnlyRun(s, s', k.run) && k in s'.attempts && k.run in s'.runs
      && s'.attempts[k].status.AttemptFailed? && s'.attempts[k].errorCode == Some(code)
      && s'.attempts[k].version == s.attempts[k].version + 1 && s'.attempts[k].leaseExpiresAt.None? && s'.attempts[k].completedAt == Some(now)
  {
    hide SameRuns, SameLogs, SameOutbox;
    var s' := Rescheduled(s, k, code, delay, now);
    RunWritten(s.runs, k.run, s'.runs[k.run]);
    LogWritten(s.events, k.run, []);
    OutboxWritten(s.outbox, k.run);
  }

  /** What a retry schedules: the next attempt, waiting, and the run queued until its delay is over. */
  lemma RetryEffect(s: State, k: AttemptId, worker: Option<WorkerId>, version: nat, before: Option<Time>,
                    now: Time, delay: Time, code: string)
    requires Inv(s) && Presents(s, k, worker, version, before)
    requires s.attempts[k].retryable && s.attempts[k].number < s.runs[k.run].maxAttempts
    ensures var s' := Fail(s, k, worker, version, before, now, delay, code).0;
      var a, run, next := s.attempts[k], s.runs[k.run], Retry(k.run, s.attempts[k].number + 1);
      && k.run in s'.runs
      && s'.runs[k.run].status.Queued? && s'.runs[k.run].currentAttempt == a.number + 1
      && s'.runs[k.run].retryCount == run.retryCount + 1
      && s'.runs[k.run].nextRetryAt == Some(now + if delay > 0.0 then delay else 0.0)
      && next !in s.attempts && next in s'.attempts && s'.attempts.Keys == s.attempts.Keys + {next}
      && s'.attempts[next].status.Retryable? && s'.attempts[next].number == a.number + 1 && s'.attempts[next].retryable == a.retryable
      && s'.attempts[next].startedAt == now && s'.attempts[next].version == 0
      && s'.events == s.events && s'.outbox == s.outbox
  {
    hide AttemptsInv, LogsInv, ThreadsInv, OutboxInv, GivenUp;
    Fits(s, k);
    RescheduledKeeps(s, k, code, delay, now);
    Counted(s, k.run);
  }

  /** What giving up does: the run fails, and its log says so. */
  lemma GiveUpEffect(s: State, k: AttemptId, worker: Option<WorkerId>, version: nat, before: Option<Time>,
                     now: Time, delay: Time, code: string) returns (e: Event)
    requires Inv(s) && Presents(s, k, worker, version, before)
    requires !(s.attempts[k].retryable && s.attempts[k].number < s.runs[k.run].maxAttempts)
    ensures var s' := Fail(s, k, worker, version, before, now, delay, code).0;
      && k.run in s'.runs
      && s'.runs[k.run].status.Failed? && s'.runs[k.run].completedAt == Some(now) && s'.runs[k.run].nextRetryAt.None?
      && s'.attempts.Keys == s.attempts.Keys
      && Logged(s, s', k.run, e) && e.eventType.RunFailed? && e.id == TerminalOf(k.run, k) && e.completedAt == Some(now)
      && e.threadId == s.runs[k.run].threadId
      && (k.run in s.outbox ==> k.run in s'.outbox && s'.outbox[k.run])
  {
    hide AttemptsInv, LogsInv, ThreadsInv, OutboxInv, Rescheduled, Log, Logged, AppendNext;
    Fits(s, k);
    NoTerminalYet(s.runs, s.events, k.run);
    OutboxWritten(s.outbox, k.run);
    e := AppendedNext(s, k.run, Event(TerminalOf(k.run, k), k.run, s.runs[k.run].threadId, 0, 0, RunFailed, Some(now)));
  }

  /** A cancel succeeds exactly on a run that is not over, and ends it with its live attempt. */
  lemma CancelEffect(s: State, r: RunId, draft: Event, now: Time) returns (e: Event)
    requires Inv(s) && TerminalId(draft.id) && draft.eventType.RunCancelled?
    ensures var (s', cancelled) := Cancel(s, r, Some(draft), now);
      && (cancelled <==> r in s.runs && (s.runs[r].status.Queued? || s.runs[r].status.Running?))
      && (!cancelled ==> s' == s)
      && (cancelled ==>
            var k := IdOf(r, s.runs[r].currentAttempt);
            && OnlyRun(s, s', r) && r in s'.runs && k in s.attempts && k in s'.attempts
            && s'.runs[r].status.Cancelled? && s'.runs[r].cancelRequestedAt == Some(now) && s'.runs[r].completedAt == Some(now)
            && s'.attempts == s.attempts[k := s'.attempts[k]]
            && s'.attempts[k].status.AttemptCancelled? && s'.attempts[k].version == s.attempts[k].version + 1
            && s'.attempts[k].leaseExpiresAt.None? && s'.attempts[k].completedAt == Some(now)
            && Logged(s, s', r, e) && e.id == draft.id && e.eventType.RunCancelled? && e.completedAt == Some(now)
            && (r in s.outbox ==> r in s'.outbox && s'.outbox[r]))
  {
    hide Inv, CancelAttempts, AppendNext, Log, Logged, SameRuns, SameAttempts, SameLogs, SameOutbox, Published;
    e := AppendedNext(s, r, draft.(completedAt := Some(now)));
    if r in s.runs {
      CancelledState(s, r, now);
      var k := IdOf(r, s.runs[r].currentAttempt);
      RunWritten(s.runs, r, s.runs[r].(status := Cancelled, cancelRequestedAt := Some(now), completedAt := Some(now)));
      AttemptWritten(s.attempts, k, CancelAttempts(s.attempts, r, now)[k]);
      LogWritten(s.events, r, Log(s.events, r) + [e]);
      OutboxWritten(s.outbox, r);
    }
  }

  /** What a cancel finds and closes. */
  lemma CancelledState(s: State, r: RunId, now: Time)
    requires Inv(s) && r in s.runs
    ensures !s.runs[r].status.Waiting?
    ensures var k, attempts' := IdOf(r, s.runs[r].currentAttempt), CancelAttempts(s.attempts, r, now);
      && k in s.attempts && k in attempts' && k.run == r
      && (!Terminal(s.runs[r].status) ==>
            && (forall id | TerminalId(id) :: !HasId(Log(s.events, r), id))
            && attempts' == s.attempts[k := attempts'[k]]
            && attempts'[k].status.AttemptCancelled? && attempts'[k].version == s.attempts[k].version + 1
            && attempts'[k].leaseExpiresAt.None? && attempts'[k].completedAt == Some(now))
  {
    hide LogsInv, ThreadsInv, OutboxInv, CancelAttempts, Log;
    var k := IdOf(r, s.runs[r].currentAttempt);
    assert RunFits(s.runs[r]);
    assert k in s.attempts && AttemptFits(k, s.attempts[k], s.runs[r]);
    CancelledAttempts(s, r, now);
    if !Terminal(s.runs[r].status) {
      NoTerminalYet(s.runs, s.events, r);
      OnlyCurrentIsLive(s, r);
    }
  }

  lemma OnlyCurrentIsLive(s: State, r: RunId)
    requires AttemptsInv(s.runs, s.attempts) && r in s.runs
    ensures forall k :: k in s.attempts && k.run == r && Live(s.attempts[k].status) ==> k == IdOf(r, s.runs[r].currentAttempt)
  {
    forall k | k in s.attempts && k.run == r && Live(s.attempts[k].status) ensures k == IdOf(r, s.runs[r].currentAttempt) {
      LiveIsCurrent(s.runs, s.attempts, k);
    }
  }

  // ------------------------------------------- late comers, in any state at all

  /** A commit that comes after a cancel cannot undo it, nor log it twice; one that comes after
      another outcome is refused. */
  lemma LateCommit(s: State, k: AttemptId, worker: WorkerId, version: nat, requested: RunStatus,
                   draft: Event, code: Option<string>, now: Time)
    requires k in s.attempts && s.attempts[k].runId in s.runs
    ensures var (s', committed) := Finalize(s, k, worker, version, requested, draft, code, now);
      var r := s.attempts[k].runId;
      && (s.runs[r].status.Completed? || s.runs[r].status.Failed? ==> !committed && s' == s)
      && (s.runs[r].status.Cancelled? && committed ==>
            && s'.runs[r].status.Cancelled? && s'.attempts[k].status.AttemptCancelled? && s'.attempts[k].version == version + 1
            && ((exists i :: 0 <= i < |Log(s.events, r)| && Log(s.events, r)[i].eventType.RunCancelled?) ==>
                  Log(s'.events, r) == Log(s.events, r)))
  {
    hide AppendNext;
  }

  /** A failure reported after a cancel closes the attempt as cancelled and leaves the run alone. */
  lemma LateFailure(s: State, k: AttemptId, worker: Option<WorkerId>, version: nat, before: Option<Time>,
                    now: Time, delay: Time, code: string)
    requires k in s.attempts && s.attempts[k].runId in s.runs && s.runs[s.attempts[k].runId].status.Cancelled?
    ensures var (s', outcome) := Fail(s, k, worker, version, before, now, delay, code);
      && outcome == (if Presents(s, k, worker, version, before) then RunWasCancelled else Stale)
      && s' == s.(attempts := s'.attempts) && s'.attempts.Keys == s.attempts.Keys
      && (forall j :: j in s.attempts && j != k ==> s'.attempts[j] == s.attempts[j])
      && (outcome.RunWasCancelled? ==>
            && s'.attempts[k].status.AttemptCancelled? && s'.attempts[k].version == version + 1
            && s'.attempts[k].leaseExpiresAt.None? && s'.attempts[k].completedAt == Some(now))
      && (outcome.Stale? ==> s' == s)
  {
    hide GivenUp, Rescheduled;
  }

  /** The scan's clean-up closes exactly an expired lease of the version it saw. */
  lemma ReapEffect(s: State, k: AttemptId, version: nat, before: Time, now: Time)
    ensures var s' := ReapCancelled(s, k, version, before, now);
      if k in s.attempts && s.attempts[k].status.Leased? && s.attempts[k].version == version
         && s.attempts[k].leaseExpiresAt.Some? && s.attempts[k].leaseExpiresAt.value <= before
      then && s' == s.(attempts := s.attempts[k := s'.attempts[k]])
           && s'.attempts[k].status.AttemptCancelled? && s'.attempts[k].errorCode == Some("CANCELLED")
           && s'.attempts[k].version == version + 1 && s'.attempts[k].leaseExpiresAt.None?
      else s' == s
  {
  }

  /** An append is refused for a known id, and for a number that does not come next; otherwise it
      adds the event at the end, numbered next in its run unless it brings a number, and next in its thread. */
  lemma AppendEffect(s: State, e: Event)
    ensures var (s', outcome) := AppendEvent(s, e);
      var log := Log(s.events, e.runId);
      var known := exists i :: 0 <= i < |log| && log[i].id == e.id;
      && (outcome.AlreadyThere? <==> known)
      && (outcome.OutOfOrder? <==> !known && e.sequence != 0 && log != [] && e.sequence <= log[|log| - 1].sequence)
      && OnlyRun(s, s', e.runId) && s' == s.(events := s'.events)
      && (!outcome.Appended? ==> Log(s'.events, e.runId) == log)
      && (outcome.Appended? ==> exists stored :: Stored(s, s', e, stored))
  {
    hide PlaceNext, IsMaxThreadSequence, SameRuns, SameAttempts, SameLogs, SameOutbox;
    var log := Log(s.events, e.runId);
    RunWritten(s.runs, e.runId, Run("", Queued, 0, 0, 0, None, None, None, None));
    AttemptWritten(s.attempts, First(e.runId), Attempt(First(""), "", 0, Retryable, None, None, None, false, 0, None, 0.0, None));
    OutboxWritten(s.outbox, e.runId);
    LogWritten(s.events, e.runId, log);
    if AppendEvent(s, e).1.Appended? {
      var stored := PlacedLast(s, e.runId, if e.sequence == 0 then e.(sequence := LastSequence(log) + 1) else e);
      LogWritten(s.events, e.runId, log + [stored]);
      assert Stored(s, AppendEvent(s, e).0, e, stored);
    }
  }

  /** `stored` is `e`, put at the end of its run's log and numbered. */
  ghost predicate Stored(s: State, s': State, e: Event, stored: Event) {
    var log := Log(s.events, e.runId);
    && Log(s'.events, e.runId) == log + [stored]
    && stored == e.(sequence := stored.sequence, threadSequence := stored.threadSequence)
    && stored.sequence == (if e.sequence != 0 then e.sequence else if log == [] then 1 else log[|log| - 1].sequence + 1)
    && stored.threadSequence >= 1 && IsMaxThreadSequence(s.events, e.threadId, stored.threadSequence - 1)
  }

  lemma PlacedLast(s: State, r: RunId, e: Event) returns (stored: Event)
    ensures PlaceNext(s, r, e) == s.(events := s.events[r := Log(s.events, r) + [stored]])
    ensures stored == e.(threadSequence := stored.threadSequence)
    ensures stored.threadSequence >= 1 && IsMaxThreadSequence(s.events, e.threadId, stored.threadSequence - 1)
  {
    hide Log;
    MaxThreadSequenceExists(s.events, e.threadId);
    var n: nat :| IsMaxThreadSequence(s.events, e.threadId, n)
                  && PlaceNext(s, r, e) == s.(events := s.events[r := Log(s.events, r) + [e.(threadSequence := n + 1)]]);
    stored := e.(threadSequence := n + 1);
  }

  lemma PublishEffect(s: State, r: RunId)
    ensures var s' := MarkPublished(s, r);
      && OnlyRun(s, s', r) && s' == s.(outbox := s'.outbox)
      && (r in s'.outbox <==> r in s.outbox) && (r in s.outbox ==> s'.outbox[r])
  {
  }

  /** An attempt is listed exactly when it is the live one of its run, from the moment on at which
      the run's delay is over and its lease, if any, has run out. */
  lemma ListedExactly(s: State, k: AttemptId, now: Time)
    requires Inv(s)
    ensures Recoverable(s, k, now) <==>
      && k in s.attempts && (s.runs[k.run].status.Queued? || s.runs[k.run].status.Running?)
      && s.attempts[k].number == s.runs[k.run].currentAttempt
      && (s.runs[k.run].nextRetryAt.Some? ==> s.runs[k.run].nextRetryAt.value <= now)
      && (s.attempts[k].status.Leased? ==> s.attempts[k].leaseExpiresAt.value <= now)
  {
    hide LogsInv, ThreadsInv, OutboxInv;
    if k in s.attempts {
      assert AttemptFits(k, s.attempts[k], s.runs[k.run]);
    }
  }
}
