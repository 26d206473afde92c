/** Every step of the durable-run store keeps the invariant. */
module RunSteps {
  import opened Wrappers
  import opened RunModel
  import opened RunInvariant

  lemma SubmitKeeps(s: State, r: RunId, thread: string, maxAttempts: nat, retryable: bool, now: Time)
    requires Inv(s) && r !in s.runs && maxAttempts >= 1
    ensures Inv(Submit(s, r, thread, maxAttempts, retryable, now))
  {
    hide LogsInv, ThreadsInv, AttemptsInv;
    var s' := Submit(s, r, thread, maxAttempts, retryable, now);
    AddRun(s.runs, s.attempts, r, s'.runs[r], s'.attempts[First(r)]);
    assert OutboxInv(s.runs, s'.outbox);
    SameOutcomes(s.runs, s.events, s'.runs, s'.outbox);
  }

  /** What a claim does in a good state: it takes the run's current attempt or nothing. */
  lemma ClaimEffect(s: State, r: RunId, worker: WorkerId, lease: Time, now: Time)
    requires AttemptsInv(s.runs, s.attempts)
    ensures var (s', res) := Claim(s, r, worker, lease, now);
      if r in s.runs && IdOf(r, s.runs[r].currentAttempt) in s.attempts
         && Claimable(s.attempts[IdOf(r, s.runs[r].currentAttempt)], now)
      then var k := IdOf(r, s.runs[r].currentAttempt);
           var a := Claimed(s.attempts[k], worker, lease, now);
           s' == s.(attempts := s.attempts[k := a]) && res == Some(a)
      else s' == s && res.None?
  {
    if r in s.runs {
      CurrentIsNewest(s, r);
    }
    if k :| IsNewest(s, r, k) {
      NewestIsCurrent(s, r, k);
      forall j | IsNewest(s, r, j) ensures j == k {
        NewestIsCurrent(s, r, j);
      }
    }
  }

  lemma ClaimKeeps(s: State, r: RunId, worker: WorkerId, lease: Time, now: Time)
    requires Inv(s)
    ensures Inv(Claim(s, r, worker, lease, now).0)
  {
    hide LogsInv, ThreadsInv, OutboxInv;
    ClaimEffect(s, r, worker, lease, now);
    if r in s.runs {
      var k := IdOf(r, s.runs[r].currentAttempt);
      assert AttemptFits(k, s.attempts[k], s.runs[r]);
      if Claimable(s.attempts[k], now) {
        ReplaceAttempt(s.runs, s.attempts, k, Claimed(s.attempts[k], worker, lease, now));
      }
    }
  }

  lemma HeartbeatKeeps(s: State, k: AttemptId, worker: WorkerId, lease: Time, version: Option<nat>, now: Time)
    requires Inv(s)
    ensures Inv(Heartbeat(s, k, worker, lease, version, now).0)
  {
    hide LogsInv, ThreadsInv, OutboxInv;
    if Renewable(s, k, worker, version, now) {
      assert AttemptFits(k, s.attempts[k], s.runs[k.run]);
      ReplaceAttempt(s.runs, s.attempts, k, s.attempts[k].(heartbeatAt := Some(now), leaseExpiresAt := Some(now + lease)));
    }
  }

  lemma StartKeeps(s: State, r: RunId, now: Time)
    requires Inv(s)
    ensures Inv(SetStatus(s, r, {Queued}, Running, now).0)
  {
    hide LogsInv, ThreadsInv, OutboxInv;
    var s' := SetStatus(s, r, {Queued}, Running, now).0;
    if r in s.runs && s.runs[r].status.Queued? {
      ReplaceRun(s.runs, s.attempts, r, s'.runs[r]);
      SameOutcomes(s.runs, s.events, s'.runs, s.outbox);
    }
  }

  /** In a good state a cancelled run has no leased attempt, so the scan's reaping step finds nothing. */
  lemma ReapIsVoid(s: State, k: AttemptId, version: nat, before: Time, now: Time)
    requires Inv(s)
    requires k in s.attempts ==> k.run in s.runs && s.runs[k.run].status.Cancelled?
    ensures ReapCancelled(s, k, version, before, now) == s
  {
    hide LogsInv, ThreadsInv, OutboxInv;
    assert k in s.attempts ==> AttemptFits(k, s.attempts[k], s.runs[k.run]);
  }

  /** Writing the terminal event of a run that is not over yet, as its status changes. */
  lemma OutcomeWritten(s: State, r: RunId, e: Event, run: Run)
    requires LogsInv(s.runs, s.events) && ThreadsInv(s.events)
    requires r in s.runs && !Terminal(s.runs[r].status)
    requires TerminalId(e.id) && Terminal(run.status) && e.eventType == TypeFor(run.status)
    ensures !HasId(Log(s.events, r), e.id) && !Duplicates(Log(s.events, r), e.id, run.status)
    ensures var s' := AppendNext(s, r, e);
      LogsInv(s.runs[r := run], s'.events) && ThreadsInv(s'.events) && s' == s.(events := s'.events)
  {
    hide LogsInv, ThreadsInv;
    NoTerminalYet(s.runs, s.events, r);
    var placed := PlaceNextAdds(s, r, e.(sequence := LastSequence(Log(s.events, r)) + 1));
    var s' := AppendNext(s, r, e);
    assert forall q :: q != r ==> Outcome(s.runs[r := run], q) == Outcome(s.runs, q);
    AddOutcome(s.runs, s.events, r, placed, s.runs[r := run], s'.events);
    AddedKeepsThreads(s.events, r, placed, s'.events);
  }

  lemma CommittedKeeps(s: State, k: AttemptId, final: RunStatus, draft: Event, code: Option<string>, now: Time)
    requires Inv(s) && k in s.attempts && Live(s.attempts[k].status) && s.attempts[k].runId == k.run && k.run in s.runs
    requires Terminal(final) && TerminalId(draft.id)
    ensures Inv(Committed(s, k, final, draft, code, now))
  {
    hide LogsInv, ThreadsInv, Log, Duplicates, AppendNext, AttemptsInv;
    LiveIsCurrent(s.runs, s.attempts, k);
    var run := s.runs[k.run].(status := final, completedAt := Some(now), nextRetryAt := None);
    OutcomeWritten(s, k.run, draft.(eventType := TypeFor(final), completedAt := Some(now)), run);
    EndByClosing(s, k, AttemptStatusFor(final), code, run, now);
  }

  /** Closing the live attempt of a run as the run ends. */
  lemma EndByClosing(s: State, k: AttemptId, status: AttemptStatus, code: Option<string>, run: Run, now: Time)
    requires AttemptsInv(s.runs, s.attempts) && k in s.attempts && Live(s.attempts[k].status) && !Live(status)
    requires k.run in s.runs && Terminal(run.status)
    requires run == s.runs[k.run].(status := run.status, completedAt := run.completedAt, nextRetryAt := run.nextRetryAt)
    ensures AttemptsInv(s.runs[k.run := run], s.attempts[k := Closed(s.attempts[k], status, code, now)])
  {
    LiveIsCurrent(s.runs, s.attempts, k);
    assert RunFits(s.runs[k.run]);
    EndRun(s.runs, s.attempts, k.run, run, s.attempts[k := Closed(s.attempts[k], status, code, now)]);
  }

  lemma FinalizeKeeps(s: State, k: AttemptId, worker: WorkerId, version: nat, requested: RunStatus,
                      draft: Event, code: Option<string>, now: Time)
    requires Inv(s) && Terminal(requested) && TerminalId(draft.id)
    ensures Inv(Finalize(s, k, worker, version, requested, draft, code, now).0)
    ensures Finalize(s, k, worker, version, requested, draft, code, now).1 <==> HoldsToken(s, k, worker, version)
  {
    hide LogsInv, ThreadsInv, OutboxInv, Committed;
    if HoldsToken(s, k, worker, version) {
      LiveIsCurrent(s.runs, s.attempts, k);
      assert AttemptFits(k, s.attempts[k], s.runs[k.run]);
      CommittedKeeps(s, k, requested, draft, code, now);
    }
  }

  lemma GivenUpKeeps(s: State, k: AttemptId, code: string, now: Time)
    requires Inv(s) && k in s.attempts && Live(s.attempts[k].status) && s.attempts[k].runId == k.run && k.run in s.runs
    ensures Inv(GivenUp(s, k, code, now))
  {
    hide LogsInv, ThreadsInv, Log, HasId, AppendNext, AttemptsInv;
    LiveIsCurrent(s.runs, s.attempts, k);
    var r := k.run;
    var run := s.runs[r].(status := RunStatus.Failed, completedAt := Some(now), nextRetryAt := None);
    OutcomeWritten(s, r, Event(TerminalOf(r, k), r, s.runs[r].threadId, 0, 0, RunFailed, Some(now)), run);
    EndByClosing(s, k, AttemptFailed, Some(code), run, now);
  }

  /** Rescheduling creates exactly the next attempt, under a free identifier. */
  lemma RescheduledKeeps(s: State, k: AttemptId, code: string, delay: Time, now: Time)
    requires Inv(s) && k in s.attempts && Live(s.attempts[k].status)
    requires AttemptFits(k, s.attempts[k], s.runs[k.run]) && s.attempts[k].number < s.runs[k.run].maxAttempts
    ensures var next := Retry(k.run, s.attempts[k].number + 1);
      && next !in s.attempts
      && Rescheduled(s, k, code, delay, now).attempts ==
         s.attempts[k := Closed(s.attempts[k], AttemptFailed, Some(code), now)][next := Successor(s.attempts[k], now)]
    ensures Inv(Rescheduled(s, k, code, delay, now))
  {
    hide LogsInv, ThreadsInv, OutboxInv;
    LiveIsCurrent(s.runs, s.attempts, k);
    assert RunFits(s.runs[k.run]);
    var run := Requeued(s.runs[k.run], s.attempts[k].number + 1, delay, now);
    RetryRun(s.runs, s.attempts, k, code, now, run, Successor(s.attempts[k], now));
    SameOutcomes(s.runs, s.events, s.runs[k.run := run], s.outbox);
  }

  lemma FailKeeps(s: State, k: AttemptId, worker: Option<WorkerId>, version: nat, before: Option<Time>,
                  now: Time, delay: Time, code: string)
    requires Inv(s)
    ensures Inv(Fail(s, k, worker, version, before, now, delay, code).0)
    ensures !Fail(s, k, worker, version, before, now, delay, code).1.RunWasCancelled?
  {
    hide LogsInv, ThreadsInv, OutboxInv, GivenUp, Rescheduled;
    if FailAccepted(s, k, worker, version, before) {
      LiveIsCurrent(s.runs, s.attempts, k);
      assert AttemptFits(k, s.attempts[k], s.runs[k.run]);
      if !s.attempts[k].retryable || s.attempts[k].number >= s.runs[k.run].maxAttempts {
        GivenUpKeeps(s, k, code, now);
      } else {
        RescheduledKeeps(s, k, code, delay, now);
      }
    }
  }

  lemma CancelKeeps(s: State, r: RunId, draft: Event, now: Time)
    requires Inv(s) && TerminalId(draft.id) && draft.eventType.RunCancelled?
    ensures Inv(Cancel(s, r, Some(draft), now).0)
  {
    hide LogsInv, ThreadsInv, Log, HasId, AppendNext, CancelAttempts;
    if r in s.runs && !Terminal(s.runs[r].status) {
      var run := s.runs[r].(status := Cancelled, cancelRequestedAt := Some(now), completedAt := Some(now));
      OutcomeWritten(s, r, draft.(completedAt := Some(now)), run);
      CancelledAttempts(s, r, now);
      EndRun(s.runs, s.attempts, r, run, CancelAttempts(s.attempts, r, now));
    }
  }

  lemma CancelledAttempts(s: State, r: RunId, now: Time)
    requires AttemptsInv(s.runs, s.attempts)
    ensures var attempts' := CancelAttempts(s.attempts, r, now);
      && attempts'.Keys == s.attempts.Keys
      && (forall k :: k in s.attempts && k.run != r ==> attempts'[k] == s.attempts[k])
      && (forall k :: k in s.attempts && k.run == r && !Live(s.attempts[k].status) ==> attempts'[k] == s.attempts[k])
      && (forall k :: k in s.attempts && k.run == r && Live(s.attempts[k].status) ==>
            attempts'[k] == Closed(s.attempts[k], AttemptCancelled, s.attempts[k].errorCode, now))
  {
    assert forall k :: k in s.attempts ==> AttemptFits(k, s.attempts[k], s.runs[k.run]);
  }

  lemma AppendKeeps(s: State, e: Event)
    requires Inv(s) && !TerminalId(e.id) && !TerminalType(e.eventType)
    ensures Inv(AppendEvent(s, e).0)
  {
    hide AttemptsInv, OutboxInv, LogsInv, ThreadsInv;
    var s' := AppendEvent(s, e).0;
    var r, log := e.runId, Log(s.events, e.runId);
    if AppendEvent(s, e).1.Appended? {
      var placed := PlaceNextAdds(s, r, if e.sequence == 0 then e.(sequence := LastSequence(log) + 1) else e);
      AddOrdinary(s.runs, s.events, r, placed, s'.events);
      AddedKeepsThreads(s.events, r, placed, s'.events);
    } else {
      TouchedLog(s.runs, s.events, r);
    }
  }

  lemma PublishKeeps(s: State, r: RunId)
    requires Inv(s)
    ensures Inv(MarkPublished(s, r))
  {
  }
}
