/** The recovery scan and the worker's commit, as loops and calls over the repository. */
module Recovery {
  import opened Wrappers
  import opened RunModel
  import opened RunInvariant
  import opened RunSteps
  import opened RunEffects
  import opened RunHistory
  import opened RunGuarantees
  import opened RunRepository

  /** What failing an expired attempt does: it settles its run and touches no other. */
  lemma FailEffect(s: State, k: AttemptId, worker: Option<WorkerId>, version: nat, before: Option<Time>,
                   now: Time, delay: Time, code: string)
    requires Inv(s) && FailAccepted(s, k, worker, version, before)
    ensures var (s', outcome) := Fail(s, k, worker, version, before, now, delay, code);
      && k.run in s'.runs
      && (outcome.WillRetry? || (outcome.FailedForGood? && s'.runs[k.run].status.Failed?))
      && (forall r :: r in s.runs && r != k.run ==> r in s'.runs && s'.runs[r] == s.runs[r])
      && (forall j :: j in s.attempts && j.run != k.run ==> j in s'.attempts && s'.attempts[j] == s.attempts[j])
      && (forall j :: j in s'.attempts && j.run != k.run ==> j in s.attempts)
      && (forall j :: j in s'.attempts && j.run == k.run ==> !s'.attempts[j].status.Leased?)
      && (forall j :: j in s.attempts && j.run == k.run && j != k ==> s'.attempts[j] == s.attempts[j])
  {
    hide AttemptsInv, LogsInv, ThreadsInv, OutboxInv, Log, HasId, AppendNext, Closed, Successor, Requeued;
    LiveIsCurrent(s.runs, s.attempts, k);
    AttemptsKnowRuns(s, k);
    FailKeeps(s, k, worker, version, before, now, delay, code);
    var s' := Fail(s, k, worker, version, before, now, delay, code).0;
    ClosedIsDead(s.attempts[k], Some(code), now);
    if s.attempts[k].retryable && s.attempts[k].number < s.runs[k.run].maxAttempts {
      RescheduledKeeps(s, k, code, delay, now);
    }
  }

  lemma ClosedIsDead(a: Attempt, code: Option<string>, now: Time)
    ensures !Live(Closed(a, AttemptFailed, code, now).status) && Successor(a, now).status.Retryable?
  {
  }

  /** The listed attempt is still as the scan saw it. */
  ghost predicate Unmoved(s: State, a: Attempt, now: Time) {
    Recoverable(s, a.id, now) && s.attempts[a.id] == a
  }

  ghost predicate Distinct(listed: seq<Attempt>) {
    forall i, j :: 0 <= i < j < |listed| ==> listed[i].id != listed[j].id
  }

  /** Progress of a scan that began in `s0`: what is still to come is unmoved, and every
      expired lease there is was there at the start and is still to come. */
  ghost predicate ScannedUpTo(s0: State, s: State, listed: seq<Attempt>, i: nat, now: Time) {
    && (forall j :: i <= j < |listed| ==> Unmoved(s, listed[j], now))
    && (forall k :: Recoverable(s, k, now) && s.attempts[k].status.Leased? ==> Recoverable(s0, k, now))
    && (forall k, j :: Recoverable(s, k, now) && s.attempts[k].status.Leased? && 0 <= j < i && j < |listed| ==> listed[j].id != k)
  }

  /** Failing the next listed attempt makes progress. */
  lemma ScanStep(s0: State, s: State, listed: seq<Attempt>, i: nat, delay: Time, now: Time)
    requires Inv(s) && Distinct(listed) && i < |listed| && ScannedUpTo(s0, s, listed, i, now)
    requires listed[i].status.Leased?
    ensures FailAccepted(s, listed[i].id, None, listed[i].version, Some(now))
    ensures ScannedUpTo(s0, Fail(s, listed[i].id, None, listed[i].version, Some(now), now, delay, "LEASE_EXPIRED").0, listed, i + 1, now)
  {
    hide LogsInv, ThreadsInv, OutboxInv, Fail;
    var a := listed[i];
    assert Unmoved(s, a, now);
    FailEffect(s, a.id, None, a.version, Some(now), now, delay, "LEASE_EXPIRED");
    var s' := Fail(s, a.id, None, a.version, Some(now), now, delay, "LEASE_EXPIRED").0;
    LiveIsCurrent(s.runs, s.attempts, a.id);
    forall k | Recoverable(s', k, now) && s'.attempts[k].status.Leased?
      ensures Recoverable(s, k, now) && s.attempts[k].status.Leased? && k != a.id
    {
      assert k.run != a.id.run;
      AttemptsKnowRuns(s, k);
    }
    forall j | i + 1 <= j < |listed|
      ensures Unmoved(s', listed[j], now)
    {
      assert Unmoved(s, listed[j], now);
      AttemptsKnowRuns(s, listed[j].id);
      assert listed[j].id.run != a.id.run;
    }
  }

  // ------------------------------------------------ what the scan makes of each

  datatype Fate = AlreadyWaiting | NextAttempt | RunFails

  /** The fate of a scanned attempt, decided by what the scan found. */
  function FateOf(s: State, a: Attempt): Fate {
    if a.status.Retryable? then AlreadyWaiting
    else if a.retryable && a.id.run in s.runs && a.number < s.runs[a.id.run].maxAttempts then NextAttempt
    else RunFails
  }

  function CountFate(s: State, scanned: seq<Attempt>, n: nat, fate: Fate): nat
    requires n <= |scanned|
  {
    if n == 0 then 0 else CountFate(s, scanned, n - 1, fate) + if FateOf(s, scanned[n - 1]) == fate then 1 else 0
  }

  /** What the store says of an attempt that met its fate. */
  ghost predicate Met(s: State, a: Attempt, fate: Fate, delay: Time, now: Time) {
    && a.id in s.attempts && a.id.run in s.runs
    && match fate
       case AlreadyWaiting => s.attempts[a.id] == a
       case NextAttempt =>
         && s.attempts[a.id].status.AttemptFailed? && s.runs[a.id.run].status.Queued?
         && s.runs[a.id.run].currentAttempt == a.number + 1
         && s.runs[a.id.run].nextRetryAt == Some(now + if delay > 0.0 then delay else 0.0)
       case RunFails => s.attempts[a.id].status.AttemptFailed? && s.runs[a.id.run].status.Failed?
  }

  /** No two scanned attempts belong to one run. */
  ghost predicate DistinctRuns(listed: seq<Attempt>) {
    forall i, j :: 0 <= i < j < |listed| ==> listed[i].id.run != listed[j].id.run
  }

  lemma ScanIsPerRun(s: State, listed: seq<Attempt>, now: Time)
    requires Inv(s) && Distinct(listed) && forall i :: 0 <= i < |listed| ==> Unmoved(s, listed[i], now)
    ensures DistinctRuns(listed)
  {
    hide Inv, Recoverable;
    forall i, j | 0 <= i < j < |listed| ensures listed[i].id.run != listed[j].id.run {
      assert Unmoved(s, listed[i], now) && Unmoved(s, listed[j], now);
      OneRecoverable(s, listed[i].id, listed[j].id, now);
    }
  }

  lemma OneRecoverable(s: State, j: AttemptId, k: AttemptId, now: Time)
    requires Inv(s) && Recoverable(s, j, now) && Recoverable(s, k, now)
    ensures j.run == k.run ==> j == k
  {
    hide AttemptsInv, LogsInv, ThreadsInv, OutboxInv;
    LiveIsCurrent(s.runs, s.attempts, j);
    LiveIsCurrent(s.runs, s.attempts, k);
  }

  /** After `n` attempts: those have met their fates, and the runs of the others are as they were. */
  ghost predicate FatesMet(s0: State, s: State, listed: seq<Attempt>, n: nat, base: real, draw: nat -> real, now: Time) {
    && (forall j :: 0 <= j < n && j < |listed| ==> Met(s, listed[j], FateOf(s0, listed[j]), Backoff(base, listed[j].number, draw(j)), now))
    && (forall j :: n <= j < |listed| ==> listed[j].id.run in s0.runs && listed[j].id.run in s.runs && s.runs[listed[j].id.run] == s0.runs[listed[j].id.run])
  }

  /** Failing one attempt of the scan decides its fate and nobody else's. */
  lemma FateStep(s0: State, s: State, listed: seq<Attempt>, i: nat, base: real, draw: nat -> real, now: Time)
    requires Inv(s) && i < |listed| && DistinctRuns(listed) && FatesMet(s0, s, listed, i, base, draw, now)
    requires Unmoved(s, listed[i], now) && listed[i].status.Leased?
    ensures var (s', outcome) := Fail(s, listed[i].id, None, listed[i].version, Some(now), now, Backoff(base, listed[i].number, draw(i)), "LEASE_EXPIRED");
      && FatesMet(s0, s', listed, i + 1, base, draw, now)
      && (outcome.WillRetry? <==> FateOf(s0, listed[i]) == NextAttempt)
      && (outcome.FailedForGood? <==> FateOf(s0, listed[i]) == RunFails)
  {
    hide Inv, Fail, Backoff, SameLogs, SameOutbox;
    var a, k := listed[i], listed[i].id;
    var delay := Backoff(base, a.number, draw(i));
    Fits(s, k);
    FailDecides(s, k, None, a.version, Some(now), now, delay, "LEASE_EXPIRED");
    var s' := Fail(s, k, None, a.version, Some(now), now, delay, "LEASE_EXPIRED").0;
    if a.retryable && a.number < s.runs[k.run].maxAttempts {
      RetryEffect(s, k, None, a.version, Some(now), now, delay, "LEASE_EXPIRED");
    } else {
      var e := GiveUpEffect(s, k, None, a.version, Some(now), now, delay, "LEASE_EXPIRED");
    }
    forall j | 0 <= j < i ensures Met(s', listed[j], FateOf(s0, listed[j]), Backoff(base, listed[j].number, draw(j)), now) {
      assert Met(s, listed[j], FateOf(s0, listed[j]), Backoff(base, listed[j].number, draw(j)), now);
      assert listed[j].id.run != k.run;
    }
    forall j | i + 1 <= j < |listed|
      ensures listed[j].id.run in s0.runs && listed[j].id.run in s'.runs && s'.runs[listed[j].id.run] == s0.runs[listed[j].id.run]
    {
      assert listed[j].id.run != k.run;
    }
  }

  lemma FateSkip(s0: State, s: State, listed: seq<Attempt>, i: nat, base: real, draw: nat -> real, now: Time)
    requires i < |listed| && FatesMet(s0, s, listed, i, base, draw, now) && Unmoved(s, listed[i], now) && listed[i].status.Retryable?
    ensures FatesMet(s0, s, listed, i + 1, base, draw, now)
  {
  }

  lemma FatesStart(s: State, listed: seq<Attempt>, base: real, draw: nat -> real, now: Time)
    requires Inv(s) && forall i :: 0 <= i < |listed| ==> Unmoved(s, listed[i], now)
    ensures FatesMet(s, s, listed, 0, base, draw, now)
  {
    hide Inv;
    forall j | 0 <= j < |listed| ensures listed[j].id.run in s.runs {
      assert Unmoved(s, listed[j], now);
      Fits(s, listed[j].id);
    }
  }

  lemma {:induction false} FatesAddUp(s: State, scanned: seq<Attempt>, n: nat)
    requires n <= |scanned|
    ensures CountFate(s, scanned, n, AlreadyWaiting) + CountFate(s, scanned, n, NextAttempt) + CountFate(s, scanned, n, RunFails) == n
  {
    if n > 0 {
      FatesAddUp(s, scanned, n - 1);
    }
  }

  /** recover_expired running alone: every scanned attempt meets its fate, the counters
      count the fates, and when the limit covers the scan no expired lease is left. `draw` is the source of jitter. */
  method RecoverExpired(repo: Repository, base: real, draw: nat -> real, now: Time, limit: int)
    returns (retryable: nat, failed: nat, alreadyRetryable: nat, ghost scanned: seq<Attempt>)
    requires repo.Valid()
    modifies repo
    ensures repo.Valid()
    ensures retryable == CountFate(old(repo.View()), scanned, |scanned|, NextAttempt)
    ensures failed == CountFate(old(repo.View()), scanned, |scanned|, RunFails)
    ensures alreadyRetryable == CountFate(old(repo.View()), scanned, |scanned|, AlreadyWaiting)
    ensures forall i :: 0 <= i < |scanned| ==>
      Met(repo.View(), scanned[i], FateOf(old(repo.View()), scanned[i]), Backoff(base, scanned[i].number, draw(i)), now)
    ensures retryable + failed + alreadyRetryable == |scanned| <= (if limit < 1 then 1 else limit)
    ensures Distinct(scanned)
    ensures forall i :: 0 <= i < |scanned| ==> Recoverable(old(repo.View()), scanned[i].id, now)
    ensures (forall k :: Recoverable(old(repo.View()), k, now) ==> Lists(scanned, k)) ==>
      forall k :: Recoverable(repo.View(), k, now) ==> repo.attempts[k].status.Retryable?
    ensures |scanned| < (if limit < 1 then 1 else limit) ==>
      forall k :: Recoverable(old(repo.View()), k, now) ==> Lists(scanned, k)
  {
    hide Inv, Fail, Met, Backoff, FateOf, Progress, Recoverable, Distinct;
    retryable, failed, alreadyRetryable := 0, 0, 0;
    var listed := repo.ListRecoverable(now, limit);
    scanned := listed;
    ghost var s0 := repo.View();
    DistinctList(listed);
    ProgressStart(s0, listed, base, draw, now);
    for i := 0 to |listed|
      invariant repo.Valid()
      invariant retryable == CountFate(s0, listed, i, NextAttempt) && failed == CountFate(s0, listed, i, RunFails)
      invariant alreadyRetryable == CountFate(s0, listed, i, AlreadyWaiting)
      invariant Progress(s0, repo.View(), listed, i, base, draw, now)
    {
      var a := listed[i];
      ghost var s := repo.View();
      // The run of a listed attempt is there and not cancelled, so the scan's branches for
      // those two cases are not taken when it runs alone (ReapIsVoid covers the latter).
      ProgressCases(s0, s, listed, i, base, draw, now);
      if a.status.Retryable? {
        alreadyRetryable := alreadyRetryable + 1;
      } else {
        ProgressStep(s0, s, listed, i, base, draw, now);
        var outcome := repo.Fail(a.id, None, a.version, Some(now), now, Backoff(base, a.number, draw(i)), "LEASE_EXPIRED");
        if outcome.WillRetry? {
          retryable := retryable + 1;
        } else if a.runId in repo.runs && repo.runs[a.runId].status.Failed? {
          failed := failed + 1;
        }
      }
    }
    FatesAddUp(s0, listed, |listed|);
    ProgressEnd(s0, repo.View(), listed, base, draw, now);
  }

  ghost predicate Progress(s0: State, s: State, listed: seq<Attempt>, n: nat, base: real, draw: nat -> real, now: Time) {
    DistinctRuns(listed) && Distinct(listed) && ScannedUpTo(s0, s, listed, n, now) && FatesMet(s0, s, listed, n, base, draw, now)
  }

  lemma DistinctList(listed: seq<Attempt>)
    requires forall i, j :: 0 <= i < j < |listed| ==> listed[i].id != listed[j].id && listed[i].startedAt <= listed[j].startedAt
    ensures Distinct(listed)
  {
  }

  lemma ProgressStart(s: State, listed: seq<Attempt>, base: real, draw: nat -> real, now: Time)
    requires Inv(s) && Distinct(listed)
    requires forall i :: 0 <= i < |listed| ==> Recoverable(s, listed[i].id, now) && s.attempts[listed[i].id] == listed[i]
    ensures Progress(s, s, listed, 0, base, draw, now)
  {
    hide Inv, Recoverable, Distinct, DistinctRuns, FatesMet;
    assert forall i :: 0 <= i < |listed| ==> Unmoved(s, listed[i], now);
    ScanIsPerRun(s, listed, now);
    FatesStart(s, listed, base, draw, now);
  }

  /** An attempt that already waits meets its fate by being left alone. */
  lemma ProgressCases(s0: State, s: State, listed: seq<Attempt>, i: nat, base: real, draw: nat -> real, now: Time)
    requires i < |listed| && Progress(s0, s, listed, i, base, draw, now)
    ensures FateOf(s0, listed[i]) == AlreadyWaiting <==> listed[i].status.Retryable?
    ensures listed[i].status.Retryable? || listed[i].status.Leased?
    ensures listed[i].status.Retryable? ==> Progress(s0, s, listed, i + 1, base, draw, now)
  {
    hide Distinct, DistinctRuns, FatesMet;
    assert Unmoved(s, listed[i], now);
    if listed[i].status.Retryable? {
      FateSkip(s0, s, listed, i, base, draw, now);
    }
  }

  lemma ProgressStep(s0: State, s: State, listed: seq<Attempt>, i: nat, base: real, draw: nat -> real, now: Time)
    requires Inv(s) && i < |listed| && Progress(s0, s, listed, i, base, draw, now) && listed[i].status.Leased?
    ensures var (s', outcome) := Fail(s, listed[i].id, None, listed[i].version, Some(now), now, Backoff(base, listed[i].number, draw(i)), "LEASE_EXPIRED");
      && Progress(s0, s', listed, i + 1, base, draw, now)
      && (outcome.WillRetry? <==> FateOf(s0, listed[i]) == NextAttempt)
      && (!outcome.WillRetry? ==>
            FateOf(s0, listed[i]) == RunFails && listed[i].runId in s'.runs && s'.runs[listed[i].runId].status.Failed?)
  {
    hide Inv, Fail, Backoff, Recoverable, Distinct, DistinctRuns;
    assert Unmoved(s, listed[i], now);
    ScanStep(s0, s, listed, i, Backoff(base, listed[i].number, draw(i)), now);
    FateStep(s0, s, listed, i, base, draw, now);
    Listed(s, listed[i], now);
    var s' := Fail(s, listed[i].id, None, listed[i].version, Some(now), now, Backoff(base, listed[i].number, draw(i)), "LEASE_EXPIRED").0;
    assert Met(s', listed[i], FateOf(s0, listed[i]), Backoff(base, listed[i].number, draw(i)), now);
  }

  lemma Listed(s: State, a: Attempt, now: Time)
    requires Inv(s) && Unmoved(s, a, now)
    ensures a.runId == a.id.run
  {
    hide Inv;
    Fits(s, a.id);
  }

  lemma ProgressEnd(s0: State, s: State, listed: seq<Attempt>, base: real, draw: nat -> real, now: Time)
    requires Progress(s0, s, listed, |listed|, base, draw, now)
    ensures Distinct(listed)
    ensures forall j :: 0 <= j < |listed| ==> Met(s, listed[j], FateOf(s0, listed[j]), Backoff(base, listed[j].number, draw(j)), now)
    ensures (forall k :: Recoverable(s0, k, now) ==> Lists(listed, k)) ==>
      forall k :: Recoverable(s, k, now) ==> s.attempts[k].status.Retryable?
  {
    hide Met, Backoff, FateOf, DistinctRuns, Distinct;
  }

  // --------------------------------------------------------- a worker's commit

  datatype Execution = Execution(status: RunStatus, retryable: bool, code: Option<string>)
  datatype WorkerOutcome = ReportedCompleted | ReportedFailed | ReportedRetryable

  /** The tail of a worker's execution, once the executor has returned: commit the outcome, or
      fail the attempt when the outcome is a transient failure or the token was lost. */
  method Settle(repo: Repository, a: Attempt, worker: WorkerId, outcome: Execution, draft: Event, base: real, draw: real, now: Time)
    returns (reported: WorkerOutcome)
    requires repo.Valid() && Terminal(outcome.status) && TerminalId(draft.id)
    requires a.workerId == Some(worker) && a.runId == a.id.run
    modifies repo
    ensures repo.Valid()
    ensures !HoldsToken(old(repo.View()), a.id, worker, a.version) ==> repo.View() == old(repo.View())
    ensures HoldsToken(old(repo.View()), a.id, worker, a.version) ==>
      && a.id.run in repo.runs
      && (reported.ReportedCompleted? <==> repo.runs[a.id.run].status.Completed?)
      && (reported.ReportedRetryable? <==> !Terminal(repo.runs[a.id.run].status))
      && !Held(repo.View(), a.id, a.version)
    ensures HoldsToken(old(repo.View()), a.id, worker, a.version) && !(outcome.status.Failed? && outcome.retryable) ==>
      && repo.View() == Finalize(old(repo.View()), a.id, worker, a.version, outcome.status, draft, outcome.code, now).0
      && repo.runs[a.id.run].status == outcome.status
    ensures HoldsToken(old(repo.View()), a.id, worker, a.version) && outcome.status.Failed? && outcome.retryable ==>
      && a.id.run in old(repo.runs)
      && (reported.ReportedRetryable? <==> old(repo.attempts)[a.id].retryable && old(repo.attempts)[a.id].number < old(repo.runs)[a.id.run].maxAttempts)
      && a.id in repo.attempts && repo.attempts[a.id].errorCode == Some("EXECUTION_FAILED")
      && (reported.ReportedRetryable? ==>
            && repo.events == old(repo.events)
            && repo.runs[a.id.run].nextRetryAt == Some(now + MaxReal(0.0, Backoff(base, a.number, draw))))
  {
    hide Inv, Fail, Finalize, Backoff;
    ghost var s := repo.View();
    TransientFacts(s, a.id, worker, a.version, Backoff(base, a.number, draw), now);
    TokenFacts(s, a.id, worker, a.version, outcome, draft, Backoff(base, a.number, draw), now);
    if !(outcome.status.Failed? && outcome.retryable) {
      var committed := repo.Finalize(a.id, worker, a.version, outcome.status, draft, outcome.code, now);
      if committed {
        return if outcome.status.Completed? then ReportedCompleted else ReportedFailed;
      }
    }
    var transition := repo.Fail(a.id, Some(worker), a.version, None, now, Backoff(base, a.number, draw), "EXECUTION_FAILED");
    if transition.WillRetry? {
      return ReportedRetryable;
    }
    if a.runId in repo.runs && repo.runs[a.runId].status.Completed? {
      return ReportedCompleted;
    }
    return ReportedFailed;
  }

  /** What a transient failure does: a retry if one is left, never the executor's own outcome. */
  lemma TransientFacts(s: State, k: AttemptId, worker: WorkerId, version: nat, delay: Time, now: Time)
    requires Inv(s)
    ensures HoldsToken(s, k, worker, version) ==>
      var (s', res) := Fail(s, k, Some(worker), version, None, now, delay, "EXECUTION_FAILED");
      && k.run in s.runs && k.run in s'.runs && k in s'.attempts && s'.attempts[k].errorCode == Some("EXECUTION_FAILED")
      && (res.WillRetry? <==> s.attempts[k].retryable && s.attempts[k].number < s.runs[k.run].maxAttempts)
      && (res.WillRetry? ==> s'.events == s.events && s'.runs[k.run].nextRetryAt == Some(now + MaxReal(0.0, delay)))
  {
    hide Inv, Fail, OnlyRun;
    if HoldsToken(s, k, worker, version) {
      Fits(s, k);
      FailDecides(s, k, Some(worker), version, None, now, delay, "EXECUTION_FAILED");
      if s.attempts[k].retryable && s.attempts[k].number < s.runs[k.run].maxAttempts {
        RetryEffect(s, k, Some(worker), version, None, now, delay, "EXECUTION_FAILED");
      }
    }
  }

  /** What committing and failing do to a token, held or not. */
  lemma TokenFacts(s: State, k: AttemptId, worker: WorkerId, version: nat, outcome: Execution, draft: Event, delay: Time, now: Time)
    requires Inv(s) && Terminal(outcome.status) && TerminalId(draft.id)
    ensures var (s', done) := Finalize(s, k, worker, version, outcome.status, draft, outcome.code, now);
      && (done <==> HoldsToken(s, k, worker, version))
      && (!done ==> s' == s)
      && (done ==> k.run in s'.runs && s'.runs[k.run].status == outcome.status && !Held(s', k, version))
    ensures var (s', res) := Fail(s, k, Some(worker), version, None, now, delay, "EXECUTION_FAILED");
      && (!HoldsToken(s, k, worker, version) ==> s' == s && res.Stale?)
      && (HoldsToken(s, k, worker, version) ==>
            && k.run in s'.runs && !Held(s', k, version)
            && (if res.WillRetry? then s'.runs[k.run].status.Queued? else s'.runs[k.run].status.Failed?))
  {
    hide AttemptsInv, LogsInv, ThreadsInv, OutboxInv, Log, HasId, Duplicates, AppendNext, Fail;
    FinalizeKeeps(s, k, worker, version, outcome.status, draft, outcome.code, now);
    AttemptsKnowRuns(s, k);
    if HoldsToken(s, k, worker, version) {
      LiveIsCurrent(s.runs, s.attempts, k);
      FailEffect(s, k, Some(worker), version, None, now, delay, "EXECUTION_FAILED");
      RequeuedStatus(s, k, Some(worker), version, None, now, delay, "EXECUTION_FAILED");
    } else {
      StaleFail(s, k, worker, version, delay, now);
    }
  }

  lemma RequeuedStatus(s: State, k: AttemptId, worker: Option<WorkerId>, version: nat, before: Option<Time>,
                       now: Time, delay: Time, code: string)
    requires Inv(s)
    ensures var (s', outcome) := Fail(s, k, worker, version, before, now, delay, code);
      outcome.WillRetry? ==> k.run in s'.runs && s'.runs[k.run].status.Queued?
  {
    hide AttemptsInv, LogsInv, ThreadsInv, OutboxInv, Log, HasId, AppendNext, Closed, Successor, GivenUp;
    AttemptsKnowRuns(s, k);
  }

  lemma StaleFail(s: State, k: AttemptId, worker: WorkerId, version: nat, delay: Time, now: Time)
    requires Inv(s) && !HoldsToken(s, k, worker, version)
    ensures Fail(s, k, Some(worker), version, None, now, delay, "EXECUTION_FAILED") == (s, Stale)
  {
    hide Inv, GivenUp, Rescheduled, Closed;
  }
}
