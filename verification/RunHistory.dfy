/**
 Properties that relate different moments of one execution: fencing tokens,
 lease exclusion, stability of outcomes, and the order of the logs.
 */
module RunHistory {
  import opened Wrappers
  import opened RunModel
  import opened RunInvariant
  import opened RunSteps
  import opened RunTraces

  // ------------------------------------------------------ one step's growth

  /** Attempts stay, their versions never go down, and an attempt that is not leased
      changes only with its version. */
  ghost predicate AttemptsGrow(attempts: Attempts, attempts': Attempts) {
    forall k :: k in attempts ==>
      && k in attempts'
      && attempts[k].version <= attempts'[k].version
      && (attempts[k].version == attempts'[k].version ==> attempts[k].status == attempts'[k].status)
  }

  /** Runs stay, their attempts are counted upwards, and a terminal status is final. */
  ghost predicate RunsGrow(runs: Runs, runs': Runs) {
    forall r :: r in runs ==>
      && r in runs'
      && runs[r].maxAttempts == runs'[r].maxAttempts
      && runs[r].currentAttempt <= runs'[r].currentAttempt
      && (Terminal(runs[r].status) ==> runs'[r].status == runs[r].status)
  }

  /** Logs only grow at the end, and what is new comes after everything of its thread. */
  ghost predicate LogsGrow(logs: Logs, logs': Logs) {
    && (forall r :: Log(logs, r) <= Log(logs', r))
    && (forall r, i, r', i' :: InLog(logs, r, i) && InLog(logs', r', i') && i' >= |Log(logs, r')|
          && logs[r][i].threadId == logs'[r'][i'].threadId
          ==> logs[r][i].threadSequence < logs'[r'][i'].threadSequence)
  }

  lemma OneAttemptGrows(attempts: Attempts, k: AttemptId, a: Attempt)
    requires k !in attempts || attempts[k].version < a.version || (attempts[k].version == a.version && attempts[k].status == a.status)
    ensures AttemptsGrow(attempts, attempts[k := a]) && AttemptsGrow(attempts, attempts)
  {
  }

  lemma AttemptsGrowOnStep(s: State, step: Step)
    requires AttemptsInv(s.runs, s.attempts) && Enabled(s, step)
    ensures AttemptsGrow(s.attempts, Next(s, step).attempts)
  {
    hide AttemptsInv, AttemptsGrow, Log, HasId, Duplicates, AppendNext, PlaceNext, Claim, Fail, CancelAttempts;
    assert AttemptsGrow(s.attempts, s.attempts) by { SameGrows(s); }
    match step
    case Submitting(r, _, _, _, _) =>
      assert First(r) !in s.attempts by { AttemptsKnowRuns(s, First(r)); }
      OneAttemptGrows(s.attempts, First(r), Next(s, step).attempts[First(r)]);
    case Claiming(r, worker, lease, now) =>
      ClaimEffect(s, r, worker, lease, now);
      if Next(s, step) != s {
        var k := IdOf(r, s.runs[r].currentAttempt);
        OneAttemptGrows(s.attempts, k, Claimed(s.attempts[k], worker, lease, now));
      }
    case Beating(k, _, lease, _, now) =>
      if k in s.attempts {
        OneAttemptGrows(s.attempts, k, s.attempts[k].(heartbeatAt := Some(now), leaseExpiresAt := Some(now + lease)));
      }
    case Finalizing(k, _, _, requested, _, error, now) =>
      if k in s.attempts && s.attempts[k].runId in s.runs {
        OneAttemptGrows(s.attempts, k, Closed(s.attempts[k], AttemptStatusFor(FinalStatus(s.runs[s.attempts[k].runId], requested)), error, now));
      }
    case HolderFailing(k, worker, version, delay, code, now) => FailGrowsAttempts(s, k, Some(worker), version, None, now, delay, code);
    case ScanFailing(k, version, delay, code, now) => FailGrowsAttempts(s, k, None, version, Some(now), now, delay, code);
    case ScanReaping(k, version, now) =>
      if k in s.attempts && s.attempts[k].version == version {
        OneAttemptGrows(s.attempts, k, s.attempts[k].(status := AttemptCancelled, errorCode := Some("CANCELLED"),
                                                      completedAt := Some(now), leaseExpiresAt := None, version := version + 1));
      }
    case Cancelling(r, _, now) => CancelGrowsAttempts(s.attempts, r, now);
    case Appending(e, _) => AppendFrame(s, e);
    case _ =>
  }

  lemma AppendFrame(s: State, e: Event)
    ensures AppendEvent(s, e).0 == s.(events := AppendEvent(s, e).0.events)
  {
  }

  lemma SameGrows(s: State)
    ensures AttemptsGrow(s.attempts, s.attempts) && RunsGrow(s.runs, s.runs)
  {
  }

  lemma CancelGrowsAttempts(attempts: Attempts, r: RunId, now: Time)
    ensures AttemptsGrow(attempts, CancelAttempts(attempts, r, now))
  {
  }

  lemma FailGrowsAttempts(s: State, k: AttemptId, worker: Option<WorkerId>, version: nat, before: Option<Time>,
                          now: Time, delay: Time, code: string)
    ensures AttemptsGrow(s.attempts, Fail(s, k, worker, version, before, now, delay, code).0.attempts)
  {
    hide Log, HasId, AppendNext, Requeued, Successor;
  }

  lemma AttemptsKnowRuns(s: State, k: AttemptId)
    requires AttemptsInv(s.runs, s.attempts)
    ensures k in s.attempts ==> k.run in s.runs && AttemptFits(k, s.attempts[k], s.runs[k.run])
  {
  }

  lemma OneRunGrows(runs: Runs, r: RunId, run: Run)
    requires r !in runs || (runs[r].maxAttempts == run.maxAttempts && runs[r].currentAttempt <= run.currentAttempt && !Terminal(runs[r].status))
    ensures RunsGrow(runs, runs[r := run])
  {
  }

  lemma RunsGrowOnStep(s: State, step: Step)
    requires AttemptsInv(s.runs, s.attempts) && Enabled(s, step)
    ensures RunsGrow(s.runs, Next(s, step).runs)
  {
    hide AttemptsInv, RunsGrow, Log, HasId, Duplicates, AppendNext, PlaceNext, Claim, Fail, CancelAttempts, Closed;
    assert RunsGrow(s.runs, s.runs) by { SameGrows(s); }
    match step
    case Submitting(r, _, _, _, _) => OneRunGrows(s.runs, r, Next(s, step).runs[r]);
    case Claiming(r, worker, lease, now) => ClaimEffect(s, r, worker, lease, now);
    case Starting(r, now) =>
      if r in s.runs && s.runs[r].status.Queued? { OneRunGrows(s.runs, r, Next(s, step).runs[r]); }
    case Finalizing(k, worker, version, requested, _, _, now) =>
      AttemptsKnowRuns(s, k);
      if HoldsToken(s, k, worker, version) { OneRunGrows(s.runs, k.run, Next(s, step).runs[k.run]); }
    case HolderFailing(k, worker, version, delay, code, now) => FailGrowsRuns(s, k, Some(worker), version, None, now, delay, code);
    case ScanFailing(k, version, delay, code, now) => FailGrowsRuns(s, k, None, version, Some(now), now, delay, code);
    case Cancelling(r, _, now) =>
      if r in s.runs && !Terminal(s.runs[r].status) { OneRunGrows(s.runs, r, Next(s, step).runs[r]); }
    case Appending(e, _) => AppendFrame(s, e);
    case _ =>
  }

  lemma FailGrowsRuns(s: State, k: AttemptId, worker: Option<WorkerId>, version: nat, before: Option<Time>,
                      now: Time, delay: Time, code: string)
    requires AttemptsInv(s.runs, s.attempts)
    ensures RunsGrow(s.runs, Fail(s, k, worker, version, before, now, delay, code).0.runs)
  {
    hide AttemptsInv, RunsGrow, Log, HasId, AppendNext, Closed, Successor;
    AttemptsKnowRuns(s, k);
    SameGrows(s);
    if FailAccepted(s, k, worker, version, before) {
      OneRunGrows(s.runs, k.run, Fail(s, k, worker, version, before, now, delay, code).0.runs[k.run]);
    }
  }

  // ---------------------------------------------------------------- the logs

  /** What one step may do to the logs. */
  ghost predicate LogStep(logs: Logs, logs': Logs) {
    || logs' == logs
    || (exists r :: logs' == logs[r := Log(logs, r)])
    || (exists r, e :: Added(logs, r, e, logs'))
  }

  lemma AppendNextStep(s: State, r: RunId, e: Event)
    ensures LogStep(s.events, AppendNext(s, r, e).events)
  {
    var placed := PlaceNextAdds(s, r, e.(sequence := LastSequence(Log(s.events, r)) + 1));
  }

  lemma LogStepOnStep(s: State, step: Step)
    ensures LogStep(s.events, Next(s, step).events)
  {
    hide LogStep, AppendNext, HasId, Duplicates;
    TouchStep(s.events);
    forall r, e ensures LogStep(s.events, AppendNext(s, r, e).events) { AppendNextStep(s, r, e); }
    forall r, e ensures LogStep(s.events, PlaceNext(s, r, e).events) { var placed := PlaceNextAdds(s, r, e); AddStep(s.events, r, placed, PlaceNext(s, r, e).events); }
  }

  lemma TouchStep(logs: Logs)
    ensures LogStep(logs, logs)
    ensures forall r :: LogStep(logs, logs[r := Log(logs, r)])
  {
  }

  lemma AddStep(logs: Logs, r: RunId, e: Event, logs': Logs)
    requires Added(logs, r, e, logs')
    ensures LogStep(logs, logs')
  {
  }

  lemma LogStepGrows(logs: Logs, logs': Logs)
    requires LogStep(logs, logs')
    ensures LogsGrow(logs, logs')
  {
    if r, e :| Added(logs, r, e, logs') {
      AddedGrows(logs, r, e, logs');
    } else {
      assert forall q :: Log(logs', q) == Log(logs, q);
    }
  }

  lemma AddedGrows(logs: Logs, r: RunId, e: Event, logs': Logs)
    requires Added(logs, r, e, logs')
    ensures LogsGrow(logs, logs')
  {
    assert Log(logs', r) == Log(logs, r) + [e];
    assert forall q :: q != r ==> Log(logs', q) == Log(logs, q);
  }

  // ------------------------------------------------------ growth over a run

  lemma {:induction false} Grows(states: seq<State>, steps: seq<Step>, i: nat, j: nat)
    requires Execution(states, steps) && i <= j < |states|
    ensures AttemptsGrow(states[i].attempts, states[j].attempts)
    ensures RunsGrow(states[i].runs, states[j].runs)
    ensures LogsGrow(states[i].events, states[j].events)
    decreases j
  {
    hide Inv, Next, Enabled, AttemptsGrow, RunsGrow, LogsGrow;
    if i == j {
      SameGrows(states[i]);
      SameLogsGrow(states[i].events);
    } else {
      Grows(states, steps, i, j - 1);
      AlwaysInv(states, steps, j - 1);
      StepGrows(states[j - 1], steps[j - 1]);
      GrowsTrans(states[i], states[j - 1], states[j]);
      LogsGrowTrans(states[i].events, states[j - 1].events, states[j].events);
    }
  }

  lemma SameLogsGrow(logs: Logs)
    ensures LogsGrow(logs, logs)
  {
  }

  lemma StepGrows(s: State, step: Step)
    requires Inv(s) && Enabled(s, step)
    ensures AttemptsGrow(s.attempts, Next(s, step).attempts)
    ensures RunsGrow(s.runs, Next(s, step).runs)
    ensures LogsGrow(s.events, Next(s, step).events)
  {
    hide AttemptsInv, LogsInv, ThreadsInv, OutboxInv, Next, Enabled, AttemptsGrow, RunsGrow, LogsGrow, LogStep;
    AttemptsGrowOnStep(s, step);
    RunsGrowOnStep(s, step);
    LogStepOnStep(s, step);
    LogStepGrows(s.events, Next(s, step).events);
  }

  lemma GrowsTrans(a: State, b: State, c: State)
    requires AttemptsGrow(a.attempts, b.attempts) && AttemptsGrow(b.attempts, c.attempts)
    requires RunsGrow(a.runs, b.runs) && RunsGrow(b.runs, c.runs)
    ensures AttemptsGrow(a.attempts, c.attempts)
    ensures RunsGrow(a.runs, c.runs)
  {
  }

  lemma LogsGrowTrans(a: Logs, b: Logs, c: Logs)
    requires LogsGrow(a, b) && LogsGrow(b, c)
    ensures LogsGrow(a, c)
  {
    forall r ensures Log(a, r) <= Log(c, r) {
      assert Log(a, r) <= Log(b, r) && Log(b, r) <= Log(c, r);
    }
    forall r, i, r', i' | InLog(a, r, i) && InLog(c, r', i') && i' >= |Log(a, r')| && a[r][i].threadId == c[r'][i'].threadId
      ensures a[r][i].threadSequence < c[r'][i'].threadSequence
    {
      assert Log(a, r) <= Log(b, r) && Log(b, r') <= Log(c, r');
      assert InLog(b, r, i) && b[r][i] == a[r][i];
      if i' < |Log(b, r')| {
        assert InLog(b, r', i') && b[r'][i'] == c[r'][i'];
      }
    }
  }

  // -------------------------------------------------------------- fencing

  /** The worker's token: the attempt at the version its claim returned. */
  predicate Held(s: State, k: AttemptId, v: nat) {
    k in s.attempts && s.attempts[k].status.Leased? && s.attempts[k].version == v
  }

  /** The step acts on behalf of token (k, v). */
  predicate Uses(step: Step, k: AttemptId, v: nat) {
    match step
    case Beating(a, _, _, version, _) => a == k && version == v
    case Finalizing(a, _, version, _, _, _, _) => a == k && version == v
    case HolderFailing(a, _, version, _, _, _) => a == k && version == v
    case ScanFailing(a, version, _, _, _) => a == k && version == v
    case _ => false
  }

  /** The step took effect rather than being refused as stale. */
  ghost predicate Accepted(s: State, step: Step) {
    match step
    case Beating(k, worker, lease, version, now) => Heartbeat(s, k, worker, lease, Some(version), now).1
    case Finalizing(k, worker, version, requested, draft, error, now) => Finalize(s, k, worker, version, requested, draft, error, now).1
    case HolderFailing(k, worker, version, delay, code, now) => !Fail(s, k, Some(worker), version, None, now, delay, code).1.Stale?
    case ScanFailing(k, version, delay, code, now) => !Fail(s, k, None, version, Some(now), now, delay, code).1.Stale?
    case Claiming(r, worker, lease, now) => Claim(s, r, worker, lease, now).1.Some?
    case _ => true
  }

  lemma AcceptedMeansHeld(s: State, step: Step, k: AttemptId, v: nat)
    requires Uses(step, k, v) && Accepted(s, step)
    ensures Held(s, k, v)
  {
    hide Committed, GivenUp, Rescheduled;
  }

  /** Fencing: once an attempt has moved on from a token, no heartbeat, finalize or fail
      that presents the token is ever accepted again. */
  lemma Fencing(states: seq<State>, steps: seq<Step>, i: nat, j: nat, k: AttemptId, v: nat)
    requires Execution(states, steps) && i <= j < |steps|
    requires k in states[i].attempts && v <= states[i].attempts[k].version && !Held(states[i], k, v)
    requires Uses(steps[j], k, v)
    ensures !Accepted(states[j], steps[j])
  {
    hide Next, Enabled, AttemptFits;
    Grows(states, steps, i, j);
    if Accepted(states[j], steps[j]) {
      AcceptedMeansHeld(states[j], steps[j], k, v);
    }
  }

  /** Losing a token always moves the version past it: by a claim, a failure, a finalize or a cancel. */
  lemma LostForGood(states: seq<State>, steps: seq<Step>, i: nat, j: nat, k: AttemptId, v: nat)
    requires Execution(states, steps) && i <= j < |states|
    requires Held(states[i], k, v) && !Held(states[j], k, v)
    ensures k in states[j].attempts && states[j].attempts[k].version > v
  {
    hide Execution;
    Grows(states, steps, i, j);
  }
}
