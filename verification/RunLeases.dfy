/** What a lease is worth: nobody else gets the run before it ends, and a run is not failed
    while attempts are left. */
module RunLeases {
  import opened Wrappers
  import opened RunModel
  import opened RunInvariant
  import opened RunSteps
  import opened RunEffects
  import opened RunTraces
  import opened RunHistory
  import opened RunGuarantees

  /** Token (k, v) is in force until `end`. */
  predicate HeldUntil(s: State, k: AttemptId, v: nat, end: Time) {
    Held(s, k, v) && s.attempts[k].leaseExpiresAt == Some(end)
  }

  /** The step is an accepted heartbeat of token (k, v). */
  ghost predicate Renews(s: State, step: Step, k: AttemptId, v: nat) {
    step.Beating? && step.attempt == k && step.version == v && Accepted(s, step)
  }

  predicate Over(s: State, r: RunId) {
    r in s.runs && (s.runs[r].status.Completed? || s.runs[r].status.Failed? || s.runs[r].status.Cancelled?)
  }

  /** While a token stays in force, only its own heartbeat moves the end of its lease. */
  lemma LeaseStays(s: State, step: Step, k: AttemptId, v: nat)
    requires Inv(s) && Enabled(s, step) && Held(s, k, v) && Held(Next(s, step), k, v)
    ensures Renews(s, step, k, v) || Next(s, step).attempts[k].leaseExpiresAt == s.attempts[k].leaseExpiresAt
  {
    hide AttemptsInv, Log, HasId, Duplicates, AppendNext, PlaceNext, LogsInv, ThreadsInv, OutboxInv, Claim, Fail, CancelAttempts, Closed;
    AttemptsKnowRuns(s, k);
    match step
    case Claiming(r, worker, lease, now) => ClaimEffect(s, r, worker, lease, now);
    case HolderFailing(j, worker, version, delay, code, now) =>
      if j != k || !FailAccepted(s, j, Some(worker), version, None) {
        FailTouches(s, j, Some(worker), version, None, now, delay, code, k);
      } else {
        FailMoves(s, j, Some(worker), version, None, now, delay, code);
      }
    case ScanFailing(j, version, delay, code, now) =>
      if j != k || !FailAccepted(s, j, None, version, Some(now)) {
        FailTouches(s, j, None, version, Some(now), now, delay, code, k);
      } else {
        FailMoves(s, j, None, version, Some(now), now, delay, code);
      }
    case Cancelling(r, draft, now) =>
      CancelledAttempts(s, r, now);
      ClosedMoves(s.attempts[k], s.attempts[k].errorCode, now);
    case Appending(e, _) => AppendFrame(s, e);
    case Finalizing(j, worker, version, requested, draft, code, now) =>
      ClosedMoves(s.attempts[k], code, now);
    case _ =>
  }

  lemma ClosedMoves(a: Attempt, code: Option<string>, now: Time)
    ensures forall status :: Closed(a, status, code, now).version == a.version + 1
  {
  }

  lemma FailMoves(s: State, k: AttemptId, worker: Option<WorkerId>, version: nat, before: Option<Time>,
                  now: Time, delay: Time, code: string)
    requires Inv(s) && FailAccepted(s, k, worker, version, before)
    ensures !Held(Fail(s, k, worker, version, before, now, delay, code).0, k, version)
  {
    hide Inv, Fail;
    FailDecides(s, k, worker, version, before, now, delay, code);
  }

  /** The holder keeps its attempt until the lease ends, unless it gives it up, renews it, or the run is over. */
  lemma {:induction false} LeaseHolds(states: seq<State>, steps: seq<Step>, i: nat, j: nat, k: AttemptId, v: nat, end: Time)
    requires Execution(states, steps) && ClockMonotone(steps) && i <= j < |steps|
    requires HeldUntil(states[i], k, v, end) && steps[j].now < end
    requires forall m :: i <= m < j ==> !GivenUpByHolder(states[m], steps[m], k, v) && !Renews(states[m], steps[m], k, v)
    ensures HeldUntil(states[j], k, v, end) || Over(states[j], k.run)
    decreases j
  {
    hide Next, Enabled, Inv, GivenUpByHolder, Renews, Accepted;
    if i < j {
      var m := j - 1;
      assert steps[m].now <= steps[j].now;
      LeaseHolds(states, steps, i, m, k, v, end);
      AlwaysInv(states, steps, m);
      if Over(states[m], k.run) {
        Grows(states, steps, m, j);
      } else if Held(states[j], k, v) {
        LeaseStays(states[m], steps[m], k, v);
      } else {
        HowTokensEnd(states[m], steps[m], k, v);
      }
    }
  }

  /** A claim is refused while the run's current token is in force, and once the run is over. */
  lemma ClaimRefused(s: State, r: RunId, worker: WorkerId, lease: Time, now: Time, k: AttemptId, v: nat, end: Time)
    requires Inv(s) && k.run == r && now < end && (HeldUntil(s, k, v, end) || Over(s, r))
    ensures Claim(s, r, worker, lease, now).1.None?
  {
    hide AttemptsInv, LogsInv, ThreadsInv, OutboxInv, Claim;
    ClaimGrants(s, r, worker, lease, now);
    if Over(s, r) {
      NoneLive(s, r);
    } else {
      LiveIsCurrent(s.runs, s.attempts, k);
    }
  }

  lemma NoneLive(s: State, r: RunId)
    requires Inv(s) && Over(s, r)
    ensures IdOf(r, s.runs[r].currentAttempt) in s.attempts && !Live(s.attempts[IdOf(r, s.runs[r].currentAttempt)].status)
  {
    hide LogsInv, ThreadsInv, OutboxInv;
    var k := IdOf(r, s.runs[r].currentAttempt);
    assert RunFits(s.runs[r]);
    assert k in s.attempts && AttemptFits(k, s.attempts[k], s.runs[r]);
  }

  /** A lease granted at t for d seconds keeps every other claim of the run out before t + d,
      unless its holder reports a failure or a heartbeat puts another end in its place. */
  lemma ClaimProtects(states: seq<State>, steps: seq<Step>, i: nat, j: nat)
    requires Execution(states, steps) && ClockMonotone(steps) && i < j < |steps|
    requires steps[i].Claiming? && Accepted(states[i], steps[i])
    requires steps[j].Claiming? && steps[j].run == steps[i].run && steps[j].now < steps[i].now + steps[i].lease
    requires var token := Claim(states[i], steps[i].run, steps[i].worker, steps[i].lease, steps[i].now).1.value;
      forall m :: i < m < j ==> !GivenUpByHolder(states[m], steps[m], token.id, token.version) && !Renews(states[m], steps[m], token.id, token.version)
    ensures !Accepted(states[j], steps[j])
  {
    hide Claim, Inv, Enabled, GivenUpByHolder, Renews;
    var token := Claim(states[i], steps[i].run, steps[i].worker, steps[i].lease, steps[i].now).1.value;
    AlwaysInv(states, steps, i);
    AlwaysInv(states, steps, j);
    ClaimGrants(states[i], steps[i].run, steps[i].worker, steps[i].lease, steps[i].now);
    assert states[i + 1] == Next(states[i], steps[i]);
    var end := steps[i].now + steps[i].lease;
    assert HeldUntil(states[i + 1], token.id, token.version, end);
    LeaseHolds(states, steps, i + 1, j, token.id, token.version, end);
    ClaimRefused(states[j], steps[j].run, steps[j].worker, steps[j].lease, steps[j].now, token.id, token.version, end);
  }

  /** The same from an accepted heartbeat on: it keeps other claims out until its own time plus its lease. */
  lemma RenewalProtects(states: seq<State>, steps: seq<Step>, i: nat, j: nat, k: AttemptId, v: nat)
    requires Execution(states, steps) && ClockMonotone(steps) && i < j < |steps|
    requires Renews(states[i], steps[i], k, v)
    requires steps[j].Claiming? && steps[j].run == k.run && steps[j].now < steps[i].now + steps[i].lease
    requires forall m :: i < m < j ==> !GivenUpByHolder(states[m], steps[m], k, v) && !Renews(states[m], steps[m], k, v)
    ensures !Accepted(states[j], steps[j])
  {
    hide Claim, Inv, Enabled, GivenUpByHolder;
    AlwaysInv(states, steps, i);
    AlwaysInv(states, steps, j);
    HeartbeatRenews(states[i], k, steps[i].worker, steps[i].lease, v, steps[i].now);
    assert states[i + 1] == Next(states[i], steps[i]);
    var end := steps[i].now + steps[i].lease;
    assert HeldUntil(states[i + 1], k, v, end);
    LeaseHolds(states, steps, i + 1, j, k, v, end);
    ClaimRefused(states[j], steps[j].run, steps[j].worker, steps[j].lease, steps[j].now, k, v, end);
  }

  // ------------------------------------------------------- no premature failure

  predicate IsFailure(step: Step) {
    step.HolderFailing? || step.ScanFailing?
  }

  predicate IsFailed(s: State, r: RunId) {
    r in s.runs && s.runs[r].status.Failed?
  }

  /** A run that a failure report ends had no attempt left, or one that must not be retried. */
  lemma FailedWhenExhausted(states: seq<State>, steps: seq<Step>, i: nat, r: RunId)
    requires Execution(states, steps) && i < |steps| && IsFailure(steps[i])
    requires !IsFailed(states[i], r) && IsFailed(states[i + 1], r)
    ensures var k := steps[i].attempt;
      && k.run == r && k in states[i].attempts && r in states[i].runs
      && (states[i].attempts[k].number == states[i].runs[r].maxAttempts || !states[i].attempts[k].retryable)
  {
    hide Inv, Enabled, Fail, SameAttempts, SameLogs, SameOutbox;
    AlwaysInv(states, steps, i);
    assert states[i + 1] == Next(states[i], steps[i]);
    match steps[i]
    case HolderFailing(k, worker, version, delay, code, now) =>
      FailureEnds(states[i], k, Some(worker), version, None, now, delay, code, r);
    case ScanFailing(k, version, delay, code, now) =>
      FailureEnds(states[i], k, None, version, Some(now), now, delay, code, r);
  }

  lemma FailureEnds(s: State, k: AttemptId, worker: Option<WorkerId>, version: nat, before: Option<Time>,
                    now: Time, delay: Time, code: string, r: RunId)
    requires Inv(s) && !IsFailed(s, r) && IsFailed(Fail(s, k, worker, version, before, now, delay, code).0, r)
    ensures k.run == r && k in s.attempts && r in s.runs
    ensures s.attempts[k].number == s.runs[r].maxAttempts || !s.attempts[k].retryable
  {
    hide Inv, Fail, SameAttempts, SameLogs, SameOutbox;
    FailDecides(s, k, worker, version, before, now, delay, code);
    if Presents(s, k, worker, version, before) {
      Fits(s, k);
      if s.attempts[k].retryable && s.attempts[k].number < s.runs[k.run].maxAttempts {
        RetryEffect(s, k, worker, version, before, now, delay, code);
      }
    }
  }
}
