/** The promises the durable-run store makes about whole executions. */
module RunGuarantees {
  import opened Wrappers
  import opened RunModel
  import opened RunInvariant
  import opened RunSteps
  import opened RunTraces
  import opened RunHistory

  // ------------------------------------------------------ outcomes are final

  lemma {:induction false} TerminalEventsPrefix(log: seq<Event>, log': seq<Event>)
    requires log <= log'
    ensures TerminalEvents(log) <= TerminalEvents(log')
  {
    if |log| < |log'| {
      TerminalEventsPrefix(log, log'[..|log'| - 1]);
    } else {
      assert log == log';
    }
  }

  /** A terminal status never changes, and neither does the terminal event that records it. */
  lemma OutcomeIsFinal(states: seq<State>, steps: seq<Step>, i: nat, j: nat, r: RunId)
    requires Execution(states, steps) && i <= j < |states|
    requires r in states[i].runs && Terminal(states[i].runs[r].status)
    ensures r in states[j].runs && states[j].runs[r].status == states[i].runs[r].status
    ensures TerminalEvents(Log(states[j].events, r)) == TerminalEvents(Log(states[i].events, r))
    ensures LiveAttempts(states[j], r) == {}
  {
    hide Next, Enabled, AttemptFits, TerminalEvents, Log;
    Grows(states, steps, i, j);
    OutcomeInLog(states, steps, i, r);
    OutcomeInLog(states, steps, j, r);
    AttemptNumbering(states, steps, j, r);
    TerminalEventsPrefix(Log(states[i].events, r), Log(states[j].events, r));
  }

  /** Events keep their place and their sequences, and what is appended later comes later:
      in its run's sequence and in its thread's sequence. */
  lemma AppendOrder(states: seq<State>, steps: seq<Step>, i: nat, j: nat, r: RunId, p: nat, q: RunId, n: nat)
    requires Execution(states, steps) && i <= j < |states|
    requires InLog(states[i].events, r, p) && InLog(states[j].events, q, n) && n >= |Log(states[i].events, q)|
    ensures InLog(states[j].events, r, p) && states[j].events[r][p] == states[i].events[r][p]
    ensures states[i].events[r][p].threadId == states[j].events[q][n].threadId ==>
      states[i].events[r][p].threadSequence < states[j].events[q][n].threadSequence
    ensures r == q ==> states[i].events[r][p].sequence < states[j].events[q][n].sequence
  {
    hide Next, Enabled, AttemptFits, TerminalEvents, AttemptsInv, ThreadsInv;
    Grows(states, steps, i, j);
    AlwaysInv(states, steps, j);
    assert Log(states[i].events, r) <= Log(states[j].events, r);
    assert LogFits(Log(states[j].events, r), Outcome(states[j].runs, r));
  }

  // --------------------------------------------------------- lease exclusion

  ghost predicate ClockMonotone(steps: seq<Step>) {
    forall i, j :: 0 <= i <= j < |steps| ==> steps[i].now <= steps[j].now
  }

  /** The holder of token (k, v) itself gives the attempt up. */
  predicate GivenUpByHolder(s: State, step: Step, k: AttemptId, v: nat) {
    && step.HolderFailing? && step.attempt == k && step.version == v
    && k in s.attempts && s.attempts[k].workerId == Some(step.worker)
  }

  predicate LeaseOver(s: State, k: AttemptId, t: Time) {
    k in s.attempts && s.attempts[k].leaseExpiresAt.Some? && s.attempts[k].leaseExpiresAt.value <= t
  }

  /** A failing step touches no other existing attempt, and needs its token to do anything. */
  lemma FailTouches(s: State, k: AttemptId, worker: Option<WorkerId>, version: nat, before: Option<Time>,
                    now: Time, delay: Time, code: string, j: AttemptId)
    requires j in s.attempts && (j != k || !FailAccepted(s, k, worker, version, before))
    ensures var s' := Fail(s, k, worker, version, before, now, delay, code).0;
      j in s'.attempts && s'.attempts[j] == s.attempts[j]
  {
    hide Log, HasId, AppendNext, Requeued, Successor, Closed;
  }

  /** The only ways a held token is lost. */
  lemma HowTokensEnd(s: State, step: Step, k: AttemptId, v: nat)
    requires Inv(s) && Enabled(s, step)
    requires Held(s, k, v) && !Held(Next(s, step), k, v)
    ensures
      || ((step.Claiming? || step.ScanFailing?) && LeaseOver(s, k, step.now))
      || GivenUpByHolder(s, step, k, v)
      || ((step.Finalizing? || step.Cancelling?)
          && k.run in Next(s, step).runs && Terminal(Next(s, step).runs[k.run].status))
  {
    hide AttemptsInv, Log, HasId, Duplicates, AppendNext, PlaceNext, LogsInv, ThreadsInv, OutboxInv, Claim, Fail, CancelAttempts, Closed;
    AttemptsKnowRuns(s, k);
    match step
    case Claiming(r, worker, lease, now) => ClaimEffect(s, r, worker, lease, now);
    case HolderFailing(j, worker, version, delay, code, now) =>
      if j != k || !FailAccepted(s, j, Some(worker), version, None) {
        FailTouches(s, j, Some(worker), version, None, now, delay, code, k);
      }
    case ScanFailing(j, version, delay, code, now) =>
      if j != k || !FailAccepted(s, j, None, version, Some(now)) {
        FailTouches(s, j, None, version, Some(now), now, delay, code, k);
      }
    case Cancelling(r, draft, now) => CancelledAttempts(s, r, now);
    case Appending(e, _) => AppendFrame(s, e);
    case _ =>
  }

  lemma {:induction false} FindLoss(states: seq<State>, i: nat, j: nat, k: AttemptId, v: nat) returns (m: nat)
    requires i < j < |states| && Held(states[i], k, v) && !Held(states[j], k, v)
    ensures i <= m < j && Held(states[m], k, v) && !Held(states[m + 1], k, v)
    decreases j - i
  {
    if Held(states[i + 1], k, v) {
      m := FindLoss(states, i + 1, j, k, v);
    } else {
      m := i;
    }
  }

  /** A successful claim leaves the run with no other token in force. */
  lemma ClaimExcludes(s: State, r: RunId, worker: WorkerId, lease: Time, now: Time, k: AttemptId, v: nat)
    requires Inv(s) && Claim(s, r, worker, lease, now).1.Some? && k.run == r
    requires (k, v) != (Claim(s, r, worker, lease, now).1.value.id, Claim(s, r, worker, lease, now).1.value.version)
    ensures r in s.runs && !Terminal(s.runs[r].status)
    ensures !Held(Claim(s, r, worker, lease, now).0, k, v)
  {
    hide LogsInv, ThreadsInv, OutboxInv, Claim;
    ClaimEffect(s, r, worker, lease, now);
    AttemptsKnowRuns(s, k);
    AttemptsKnowRuns(s, IdOf(r, s.runs[r].currentAttempt));
  }

  /** Lease periods of different tokens of one run do not overlap: when token (k, v) was in
      force and another token of the run is claimed later, then by the time of that claim
      the lease (k, v) had when it was lost had run out, unless its own holder gave it up. */
  lemma LeaseExclusion(states: seq<State>, steps: seq<Step>, i: nat, j: nat, k: AttemptId, v: nat) returns (m: nat)
    requires Execution(states, steps) && ClockMonotone(steps) && i <= j < |steps|
    requires Held(states[i], k, v)
    requires steps[j].Claiming? && steps[j].run == k.run
    requires var granted := Claim(states[j], steps[j].run, steps[j].worker, steps[j].lease, steps[j].now).1;
      granted.Some? && (granted.value.id, granted.value.version) != (k, v)
    ensures i <= m <= j && Held(states[m], k, v) && !Held(states[m + 1], k, v)
    ensures LeaseOver(states[m], k, steps[j].now) || GivenUpByHolder(states[m], steps[m], k, v)
  {
    AlwaysInv(states, steps, j);
    ClaimExcludes(states[j], k.run, steps[j].worker, steps[j].lease, steps[j].now, k, v);
    assert states[j + 1] == Next(states[j], steps[j]);
    hide Claim, Inv, Enabled;
    m := FindLoss(states, i, j + 1, k, v);
    AlwaysInv(states, steps, m);
    assert Enabled(states[m], steps[m]) && states[m + 1] == Next(states[m], steps[m]);
    hide Next;
    HowTokensEnd(states[m], steps[m], k, v);
    assert steps[m].now <= steps[j].now;
    if steps[m].Finalizing? || steps[m].Cancelling? {
      Grows(states, steps, m + 1, j);
    }
  }

  // ------------------------------------------------------------- no run lost

  /** The moment from which the recovery scan is bound to list the live attempt of a run. */
  function ListedFrom(run: Run, a: Attempt): Time {
    MaxReal(if run.nextRetryAt.Some? then run.nextRetryAt.value else 0.0,
            if a.leaseExpiresAt.Some? then a.leaseExpiresAt.value else 0.0)
  }

  /** No run is lost: the live attempt of a run that is not over is listed by every late
      enough scan, and a run that is over is listed by none. Nor is an attempt listed early:
      not before its delay is over, and not while its lease lasts. */
  lemma NoRunLost(states: seq<State>, steps: seq<Step>, i: nat, r: RunId)
    requires Execution(states, steps) && i < |states| && r in states[i].runs
    ensures var s, run := states[i], states[i].runs[r];
      if Terminal(run.status)
      then forall k: AttemptId, now :: k.run == r ==> !Recoverable(s, k, now)
      else var k := IdOf(r, run.currentAttempt);
           && k in s.attempts
           && (forall now :: now >= ListedFrom(run, s.attempts[k]) ==> Recoverable(s, k, now))
           && (forall now :: run.nextRetryAt.Some? && now < run.nextRetryAt.value ==> !Recoverable(s, k, now))
           && (forall now :: s.attempts[k].leaseExpiresAt.Some? && now < s.attempts[k].leaseExpiresAt.value ==> !Recoverable(s, k, now))
           && (forall k': AttemptId, now :: k'.run == r && Recoverable(s, k', now) ==> k' == k)
  {
    AlwaysInv(states, steps, i);
    var s, run := states[i], states[i].runs[r];
    hide LogsInv, ThreadsInv, OutboxInv, Execution;
    assert RunFits(run);
    var k := IdOf(r, run.currentAttempt);
    assert k in s.attempts;
    assert forall j :: j in s.attempts ==> AttemptFits(j, s.attempts[j], s.runs[j.run]);
  }

  // --------------------------------------------------------- bounded retries

  function Pow2(n: nat): nat {
    if n == 0 then 1 else 2 * Pow2(n - 1)
  }

  /** The recovery service's back-off: exponential in the attempt number, plus a random draw. */
  function Backoff(base: real, number: nat, draw: real): real {
    var d := base * Pow2(if number >= 1 then number - 1 else 0) as real;
    if d > 0.0 then d + draw else d
  }

  /** The first delay is the base, each further one twice the last, each with its own draw on top;
      without a base there is neither delay nor draw. */
  lemma BackoffDoubles(base: real, number: nat, draw: real)
    requires number >= 1
    ensures base > 0.0 ==> Backoff(base, 1, draw) == base + draw
    ensures base > 0.0 ==> Backoff(base, number + 1, draw) == 2.0 * Backoff(base, number, 0.0) + draw
    ensures Backoff(0.0, number, draw) == 0.0 && Backoff(base, 0, draw) == Backoff(base, 1, draw)
  {
    var p := Pow2(number - 1) as real;
    assert Pow2(number) as real == 2.0 * p;
    Pow2Positive(number - 1);
    if base > 0.0 {
      assert base * p > 0.0;
      assert base * (2.0 * p) == 2.0 * (base * p);
    }
  }

  lemma {:induction false} Pow2Positive(n: nat)
    ensures Pow2(n) >= 1
  {
    if n > 0 {
      Pow2Positive(n - 1);
    }
  }

  /** The step reschedules an attempt of run `r`. */
  ghost predicate Reschedules(s: State, step: Step, r: RunId) {
    match step
    case HolderFailing(k, worker, version, delay, code, now) => k.run == r && Fail(s, k, Some(worker), version, None, now, delay, code).1.WillRetry?
    case ScanFailing(k, version, delay, code, now) => k.run == r && Fail(s, k, None, version, Some(now), now, delay, code).1.WillRetry?
    case _ => false
  }

  /** Every failing step was given a delay computed by the service's back-off. */
  ghost predicate DelaysFrom(base: real, jitter: real, steps: seq<Step>) {
    forall i :: 0 <= i < |steps| && (steps[i].HolderFailing? || steps[i].ScanFailing?) ==>
      exists draw :: 0.0 <= draw <= MaxReal(0.0, jitter) && steps[i].delay == Backoff(base, NumberOf(steps[i].attempt), draw)
  }

  ghost function RetryCount(states: seq<State>, steps: seq<Step>, r: RunId, n: nat): nat
    requires |states| == |steps| + 1 && n <= |steps|
  {
    if n == 0 then 0
    else RetryCount(states, steps, r, n - 1) + if Reschedules(states[n - 1], steps[n - 1], r) then 1 else 0
  }

  ghost function TotalDelay(states: seq<State>, steps: seq<Step>, r: RunId, n: nat): real
    requires |states| == |steps| + 1 && n <= |steps|
  {
    if n == 0 then 0.0
    else TotalDelay(states, steps, r, n - 1) + if Reschedules(states[n - 1], steps[n - 1], r) then MaxReal(0.0, steps[n - 1].delay) else 0.0
  }

  /** A rescheduling step moves its run to the next attempt, from the one it failed;
      no other step changes which attempt is current. */
  lemma RescheduleCounts(s: State, step: Step, r: RunId)
    requires Inv(s) && Enabled(s, step) && r in Next(s, step).runs
    ensures Reschedules(s, step, r) ==>
      && r in s.runs && (step.HolderFailing? || step.ScanFailing?)
      && NumberOf(step.attempt) == s.runs[r].currentAttempt
      && Next(s, step).runs[r].currentAttempt == s.runs[r].currentAttempt + 1
    ensures !Reschedules(s, step, r) ==>
      Next(s, step).runs[r].currentAttempt == if r in s.runs then s.runs[r].currentAttempt else 1
  {
    hide AttemptsInv, Log, HasId, Duplicates, AppendNext, PlaceNext, LogsInv, ThreadsInv, OutboxInv, Claim, CancelAttempts, Closed, Fail, AttemptFits;
    match step
    case Claiming(q, worker, lease, now) => ClaimEffect(s, q, worker, lease, now);
    case HolderFailing(k, worker, version, delay, code, now) => FailCounts(s, k, Some(worker), version, None, now, delay, code, r);
    case ScanFailing(k, version, delay, code, now) => FailCounts(s, k, None, version, Some(now), now, delay, code, r);
    case Appending(e, _) => AppendFrame(s, e);
    case _ =>
  }

  lemma FailCounts(s: State, k: AttemptId, worker: Option<WorkerId>, version: nat, before: Option<Time>,
                   now: Time, delay: Time, code: string, r: RunId)
    requires Inv(s)
    ensures var (s', outcome) := Fail(s, k, worker, version, before, now, delay, code);
      && s'.runs.Keys == s.runs.Keys
      && (k.run == r && outcome.WillRetry? ==>
            r in s.runs && NumberOf(k) == s.runs[r].currentAttempt && s'.runs[r].currentAttempt == s.runs[r].currentAttempt + 1)
      && (r in s.runs && !(k.run == r && outcome.WillRetry?) ==> s'.runs[r].currentAttempt == s.runs[r].currentAttempt)
  {
    hide Log, HasId, AppendNext, LogsInv, ThreadsInv, OutboxInv, Closed, Successor;
    AttemptsKnowRuns(s, k);
  }

  /** Over any execution a run is retried exactly currentAttempt - 1 times, hence at most
      maxAttempts - 1 times. */
  lemma {:induction false} RetriesBounded(states: seq<State>, steps: seq<Step>, n: nat, r: RunId)
    requires Execution(states, steps) && n <= |steps|
    ensures if r in states[n].runs
            then RetryCount(states, steps, r, n) == states[n].runs[r].currentAttempt - 1
                 && RetryCount(states, steps, r, n) == states[n].runs[r].retryCount <= states[n].runs[r].maxAttempts - 1
            else RetryCount(states, steps, r, n) == 0
  {
    hide Reschedules, Next, Enabled;
    AlwaysInv(states, steps, n);
    if r in states[n].runs { assert RunFits(states[n].runs[r]); }
    hide Inv;
    if n > 0 {
      RetriesBounded(states, steps, n - 1, r);
      StepAccounting(states, steps, n - 1, r);
    }
  }

  /** One step of an execution, as the accounting of retries sees it. */
  lemma StepAccounting(states: seq<State>, steps: seq<Step>, n: nat, r: RunId)
    requires Execution(states, steps) && n < |steps|
    ensures r in states[n].runs ==> r in states[n + 1].runs
    ensures Reschedules(states[n], steps[n], r) ==>
      && r in states[n].runs && r in states[n + 1].runs && (steps[n].HolderFailing? || steps[n].ScanFailing?)
      && NumberOf(steps[n].attempt) == states[n].runs[r].currentAttempt
      && states[n + 1].runs[r].currentAttempt == states[n].runs[r].currentAttempt + 1
    ensures !Reschedules(states[n], steps[n], r) && r in states[n + 1].runs ==>
      states[n + 1].runs[r].currentAttempt == if r in states[n].runs then states[n].runs[r].currentAttempt else 1
  {
    hide Reschedules, Next, Enabled;
    AlwaysInv(states, steps, n);
    Grows(states, steps, n, n + 1);
    RescheduledRunExists(states[n], steps[n], r);
    hide Inv;
    if r in states[n + 1].runs {
      RescheduleCounts(states[n], steps[n], r);
    }
  }

  lemma RescheduledRunExists(s: State, step: Step, r: RunId)
    ensures Inv(s) && Reschedules(s, step, r) ==> r in s.runs
  {
    hide LogsInv, ThreadsInv, OutboxInv, GivenUp, Rescheduled;
    if Inv(s) && (step.HolderFailing? || step.ScanFailing?) {
      AttemptsKnowRuns(s, step.attempt);
    }
  }

  /** What `number - 1` retries may be delayed in total. */
  function DelayBound(base: real, jitter: real, number: nat): real
    requires number >= 1
  {
    base * (Pow2(number - 1) - 1) as real + (number - 1) as real * jitter
  }

  lemma DelayBoundStep(base: real, jitter: real, number: nat, draw: real)
    requires base >= 0.0 && 0.0 <= draw <= jitter && number >= 1
    ensures DelayBound(base, jitter, number) + MaxReal(0.0, Backoff(base, number, draw)) <= DelayBound(base, jitter, number + 1)
    ensures DelayBound(base, jitter, 1) == 0.0
  {
    var p := Pow2(number - 1) as real;
    assert base * p >= 0.0;
    assert Pow2(number) as real == 2.0 * p;
    assert base * (2.0 * p - 1.0) == base * (p - 1.0) + base * p;
    assert number as real * jitter == (number - 1) as real * jitter + jitter;
  }

  lemma {:induction false} DelayBoundMonotone(base: real, jitter: real, m: nat, n: nat)
    requires base >= 0.0 && jitter >= 0.0 && 1 <= m <= n
    ensures DelayBound(base, jitter, m) <= DelayBound(base, jitter, n)
  {
    if m < n {
      DelayBoundMonotone(base, jitter, m, n - 1);
      DelayBoundStep(base, jitter, n - 1, 0.0);
    }
  }

  lemma {:induction false} DelaysSoFar(states: seq<State>, steps: seq<Step>, n: nat, r: RunId, base: real, jitter: real)
    requires Execution(states, steps) && n <= |steps| && base >= 0.0 && jitter >= 0.0 && DelaysFrom(base, jitter, steps)
    ensures r !in states[n].runs ==> TotalDelay(states, steps, r, n) == 0.0
    ensures r in states[n].runs ==>
      var number := states[n].runs[r].currentAttempt;
      number >= 1 && TotalDelay(states, steps, r, n) <= DelayBound(base, jitter, number)
  {
    hide Reschedules, Next, Enabled, DelayBound, Backoff;
    AlwaysInv(states, steps, n);
    if r in states[n].runs { assert RunFits(states[n].runs[r]); }
    hide Inv;
    DelayBoundStep(base, jitter, 1, 0.0);
    if n > 0 {
      DelaysSoFar(states, steps, n - 1, r, base, jitter);
      StepAccounting(states, steps, n - 1, r);
      if Reschedules(states[n - 1], steps[n - 1], r) {
        var number := states[n - 1].runs[r].currentAttempt;
        var draw :| 0.0 <= draw <= MaxReal(0.0, jitter) && steps[n - 1].delay == Backoff(base, number, draw);
        DelayBoundStep(base, jitter, number, draw);
      }
    }
  }

  /** The delays scheduled for a run sum to at most
      base * (2^(maxAttempts - 1) - 1) + (maxAttempts - 1) * jitter. */
  lemma DelaysBounded(states: seq<State>, steps: seq<Step>, n: nat, r: RunId, base: real, jitter: real)
    requires Execution(states, steps) && n <= |steps| && base >= 0.0 && jitter >= 0.0 && DelaysFrom(base, jitter, steps)
    requires r in states[n].runs
    ensures var m := states[n].runs[r].maxAttempts;
      m >= 1 && TotalDelay(states, steps, r, n) <= base * (Pow2(m - 1) - 1) as real + (m - 1) as real * jitter
  {
    hide Next, Enabled, TotalDelay;
    DelaysSoFar(states, steps, n, r, base, jitter);
    AttemptNumbering(states, steps, n, r);
    DelayBoundMonotone(base, jitter, states[n].runs[r].currentAttempt, states[n].runs[r].maxAttempts);
  }

  // ------------------------------------------------------- exact conditions

  /** The store itself accepts any requested status. Committing a held attempt keeps the
      invariant exactly when that status is terminal. */
  lemma FinalizeExact(s: State, k: AttemptId, worker: WorkerId, version: nat, requested: RunStatus,
                      draft: Event, code: Option<string>, now: Time)
    requires Inv(s) && TerminalId(draft.id) && HoldsToken(s, k, worker, version)
    ensures Inv(Finalize(s, k, worker, version, requested, draft, code, now).0) <==> Terminal(requested)
  {
    if Terminal(requested) {
      FinalizeKeeps(s, k, worker, version, requested, draft, code, now);
    } else {
      hide LogsInv, ThreadsInv, OutboxInv, AppendNext, Duplicates, Log;
      LiveIsCurrent(s.runs, s.attempts, k);
      AttemptsKnowRuns(s, k);
      var s' := Finalize(s, k, worker, version, requested, draft, code, now).0;
      if Inv(s') {
        AttemptsKnowRuns(s', k);
      }
    }
  }

  /** An internal cancel that brings no terminal event keeps the invariant exactly when it changes nothing. */
  lemma SilentCancelExact(s: State, r: RunId, now: Time)
    requires Inv(s)
    ensures Inv(Cancel(s, r, None, now).0) <==> (r !in s.runs || Terminal(s.runs[r].status))
  {
    hide AttemptsInv, ThreadsInv, OutboxInv, LogOk;
    if r in s.runs && !Terminal(s.runs[r].status) {
      var s' := Cancel(s, r, None, now).0;
      assert LogFits(Log(s.events, r), Outcome(s.runs, r));
      assert !LogFits(Log(s'.events, r), Outcome(s'.runs, r));
    }
  }
}
