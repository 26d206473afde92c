/**
 The in-memory run repository: four dictionaries updated in place under one lock.
 Each method is proved to perform exactly the step of RunModel with its name and to
 keep the invariant, so every theorem about executions applies to it.
 */
module RunRepository {
  import opened Wrappers
  import opened RunModel
  import opened RunInvariant
  import opened RunSteps
  import opened RunEffects

  class Repository {
    var runs: map<RunId, Run>
    var attempts: map<AttemptId, Attempt>
    var events: map<RunId, seq<Event>>
    var outbox: map<RunId, bool>

    ghost function View(): State
      reads this
    {
      State(runs, attempts, events, outbox)
    }

    ghost predicate Valid()
      reads this
    {
      Inv(View())
    }

    constructor ()
      ensures Valid() && View() == Empty
    {
      runs, attempts, events, outbox := map[], map[], map[], map[];
      new;
      assert forall r :: Log(events, r) == [];
    }

    /** create, add_attempt and add_outbox of one submission transaction. */
    method Submit(r: RunId, thread: string, maxAttempts: nat, retryable: bool, now: Time)
      requires Valid() && r !in runs && maxAttempts >= 1
      modifies this
      ensures Valid() && View() == RunModel.Submit(old(View()), r, thread, maxAttempts, retryable, now)
    {
      hide Inv;
      SubmitKeeps(View(), r, thread, maxAttempts, retryable, now);
      runs := runs[r := Run(thread, Queued, 1, maxAttempts, 0, None, None, None, None)];
      attempts := attempts[First(r) := Attempt(First(r), r, 1, Retryable, None, None, None, retryable, 0, None, now, None)];
      if r !in outbox {
        outbox := outbox[r := false];
      }
    }

    /** The attempt of a run with the highest number, as the sort in `claim` finds it. */
    method NewestAttempt(r: RunId) returns (newest: Option<AttemptId>)
      ensures newest.Some? ==> IsNewest(View(), r, newest.value)
      ensures newest.None? ==> forall k :: k in attempts ==> attempts[k].runId != r
    {
      newest := None;
      var rest := attempts.Keys;
      while rest != {}
        invariant rest <= attempts.Keys
        invariant newest.Some? ==> newest.value in attempts && attempts[newest.value].runId == r
        invariant forall k :: k in attempts && k !in rest && attempts[k].runId == r ==>
          newest.Some? && attempts[k].number <= attempts[newest.value].number
        decreases |rest|
      {
        var k :| k in rest;
        rest := rest - {k};
        if attempts[k].runId == r && (newest.None? || attempts[newest.value].number < attempts[k].number) {
          newest := Some(k);
        }
      }
    }

    method Claim(r: RunId, worker: WorkerId, lease: Time, now: Time) returns (claimed: Option<Attempt>)
      requires Valid()
      modifies this
      ensures Valid() && (View(), claimed) == RunModel.Claim(old(View()), r, worker, lease, now)
      ensures claimed.Some? ==>
        var a := claimed.value;
        && a.id in old(attempts) && a.version == old(attempts)[a.id].version + 1
        && a.status.Leased? && a.workerId == Some(worker) && a.leaseExpiresAt == Some(now + lease)
    {
      hide AttemptsInv, LogsInv, ThreadsInv, OutboxInv, RunModel.Claim;
      ClaimKeeps(View(), r, worker, lease, now);
      ClaimEffect(View(), r, worker, lease, now);
      var newest := NewestAttempt(r);
      if newest.None? {
        CurrentOnly(r, None);
        return None;
      }
      CurrentOnly(r, newest);
      Fits(View(), newest.value);
      var a := attempts[newest.value];
      if !Claimable(a, now) {
        return None;
      }
      var a' := a.(status := Leased, workerId := Some(worker), heartbeatAt := Some(now),
                   leaseExpiresAt := Some(now + lease), version := a.version + 1);
      attempts := attempts[newest.value := a'];
      return Some(a');
    }

    /** In a valid repository the search finds the current attempt, or nothing for an unknown run. */
    lemma CurrentOnly(r: RunId, newest: Option<AttemptId>)
      requires Valid()
      requires newest.Some? ==> IsNewest(View(), r, newest.value)
      requires newest.None? ==> forall k :: k in attempts ==> attempts[k].runId != r
      ensures newest.Some? <==> r in runs
      ensures newest.Some? ==> newest.value == IdOf(r, runs[r].currentAttempt)
    {
      hide LogsInv, ThreadsInv, OutboxInv;
      if newest.Some? {
        NewestIsCurrent(View(), r, newest.value);
      } else if r in runs {
        CurrentIsNewest(View(), r);
      }
    }

    method Heartbeat(k: AttemptId, worker: WorkerId, lease: Time, expectedVersion: Option<nat>, now: Time) returns (renewed: bool)
      requires Valid()
      modifies this
      ensures Valid() && (View(), renewed) == RunModel.Heartbeat(old(View()), k, worker, lease, expectedVersion, now)
    {
      hide Inv;
      HeartbeatKeeps(View(), k, worker, lease, expectedVersion, now);
      if k !in attempts {
        return false;
      }
      var a := attempts[k];
      if !a.status.Leased? || a.workerId != Some(worker)
         || (expectedVersion.Some? && a.version != expectedVersion.value)
         || (a.leaseExpiresAt.Some? && a.leaseExpiresAt.value <= now)
      {
        return false;
      }
      attempts := attempts[k := a.(heartbeatAt := Some(now), leaseExpiresAt := Some(now + lease))];
      return true;
    }

    /** The only status compare-and-set in use: a worker starts a queued run. */
    method Start(r: RunId, now: Time) returns (started: bool)
      requires Valid()
      modifies this
      ensures Valid() && (View(), started) == SetStatus(old(View()), r, {Queued}, Running, now)
    {
      hide Inv;
      StartKeeps(View(), r, now);
      if r !in runs || !runs[r].status.Queued? {
        return false;
      }
      var run := runs[r];
      runs := runs[r := run.(status := Running, startedAt := if run.startedAt.Some? then run.startedAt else Some(now), completedAt := None)];
      return true;
    }

    /** max(thread_sequence) over all logs, as a loop over the dictionary of logs. */
    method MaxThreadSequence(thread: string) returns (n: nat)
      ensures IsMaxThreadSequence(events, thread, n)
    {
      n := 0;
      var rest := events.Keys;
      while rest != {}
        invariant rest <= events.Keys
        invariant n == 0 || ThreadSequenceUsed(events, thread, n)
        invariant forall r, i :: InLog(events, r, i) && r !in rest && events[r][i].threadId == thread ==> events[r][i].threadSequence <= n
        decreases |rest|
      {
        var r :| r in rest;
        rest := rest - {r};
        for i := 0 to |events[r]|
          invariant n == 0 || ThreadSequenceUsed(events, thread, n)
          invariant forall q, j :: InLog(events, q, j) && q !in rest && q != r && events[q][j].threadId == thread ==> events[q][j].threadSequence <= n
          invariant forall j :: 0 <= j < i && events[r][j].threadId == thread ==> events[r][j].threadSequence <= n
        {
          if events[r][i].threadId == thread && n < events[r][i].threadSequence {
            n := events[r][i].threadSequence;
            assert InLog(events, r, i);
          }
        }
      }
    }

    /** Appends an event whose run sequence is settled. */
    method Place(r: RunId, e: Event)
      modifies this`events
      ensures View() == PlaceNext(old(View()), r, e)
    {
      var n := MaxThreadSequence(e.threadId);
      forall m: nat | IsMaxThreadSequence(events, e.threadId, m) ensures m == n {
        MaxThreadSequenceUnique(events, e.threadId, m, n);
      }
      var log := if r in events then events[r] else [];
      events := events[r := log + [e.(threadSequence := n + 1)]];
    }

    method FindId(r: RunId, id: EventId) returns (found: bool)
      ensures found <==> HasId(Log(events, r), id)
    {
      var log := if r in events then events[r] else [];
      found := exists i :: 0 <= i < |log| && log[i].id == id;
    }

    /** Writes a terminal event unless the log already holds one that stands for it. */
    method WriteOnce(r: RunId, e: Event, duplicate: bool)
      modifies this`events
      ensures View() == if duplicate then old(View()).(events := old(events)[r := Log(old(events), r)]) else AppendNext(old(View()), r, e)
    {
      var log := if r in events then events[r] else [];
      if duplicate {
        events := events[r := log];
      } else {
        Place(r, e.(sequence := (if log == [] then 0 else log[|log| - 1].sequence) + 1));
      }
    }

    /** Closes the attempt and the run, logs the outcome and settles the outbox. */
    method Commit(k: AttemptId, final: RunStatus, draft: Event, code: Option<string>, now: Time)
      requires k in attempts && attempts[k].runId in runs
      modifies this
      ensures View() == Committed(old(View()), k, final, draft, code, now)
    {
      hide AppendNext, Duplicates;
      var a, r := attempts[k], attempts[k].runId;
      var event := draft.(eventType := TypeFor(final), completedAt := Some(now));
      var existing := StandsFor(r, event.id, final);
      WriteOnce(r, event, existing);
      attempts := attempts[k := a.(status := AttemptStatusFor(final), errorCode := code, completedAt := Some(now),
                                   leaseExpiresAt := None, version := a.version + 1)];
      runs := runs[r := runs[r].(status := final, completedAt := Some(now), nextRetryAt := None)];
      if r in outbox {
        outbox := outbox[r := true];
      }
    }

    method StandsFor(r: RunId, id: EventId, final: RunStatus) returns (found: bool)
      ensures found <==> Duplicates(Log(events, r), id, final)
    {
      var log := if r in events then events[r] else [];
      found := exists i :: 0 <= i < |log| && (log[i].id == id || (final.Cancelled? && log[i].eventType.RunCancelled?));
    }

    method Finalize(k: AttemptId, worker: WorkerId, expectedVersion: nat, requested: RunStatus,
                    draft: Event, code: Option<string>, now: Time) returns (committed: bool)
      modifies this
      ensures old(Valid()) && Terminal(requested) && TerminalId(draft.id) ==> Valid()
      ensures (View(), committed) == RunModel.Finalize(old(View()), k, worker, expectedVersion, requested, draft, code, now)
      ensures old(Valid()) && Terminal(requested) && TerminalId(draft.id) && committed ==>
        && k.run in runs && runs[k.run].status == requested && k in attempts
        && (requested.Completed? ==> attempts[k].status.AttemptCompleted? && LastType(events, k.run) == Some(RunCompleted))
        && (requested.Failed? ==> attempts[k].status.AttemptFailed? && LastType(events, k.run) == Some(RunFailed))
        && (requested.Cancelled? ==> attempts[k].status.AttemptCancelled? && LastType(events, k.run) == Some(RunCancelled))
    {
      hide Inv, Committed, LastType;
      if Valid() && Terminal(requested) && TerminalId(draft.id) {
        FinalizeKeeps(View(), k, worker, expectedVersion, requested, draft, code, now);
        CommittedTypes(View(), k, worker, expectedVersion, requested, draft, code, now);
      }
      if k !in attempts || !attempts[k].status.Leased? || attempts[k].workerId != Some(worker) || attempts[k].version != expectedVersion {
        return false;
      }
      if attempts[k].runId !in runs {
        return false;
      }
      var status := runs[attempts[k].runId].status;
      var final := if status.Cancelled? then Cancelled else requested;
      if status.Completed? || status.Failed? {
        return false;
      }
      Commit(k, final, draft, code, now);
      return true;
    }

    /** The last attempt failed: the run fails with it. */
    method GiveUp(k: AttemptId, code: string, now: Time)
      requires k in attempts && attempts[k].runId in runs
      modifies this
      ensures View() == GivenUp(old(View()), k, code, now)
    {
      hide AppendNext, HasId;
      var a, r := attempts[k], attempts[k].runId;
      var event := Event(TerminalOf(r, k), r, runs[r].threadId, 0, 0, RunFailed, Some(now));
      var existing := FindId(r, event.id);
      WriteOnce(r, event, existing);
      attempts := attempts[k := a.(status := AttemptFailed, errorCode := Some(code), completedAt := Some(now),
                                   leaseExpiresAt := None, version := a.version + 1)];
      runs := runs[r := runs[r].(status := RunStatus.Failed, completedAt := Some(now), nextRetryAt := None)];
      if r in outbox {
        outbox := outbox[r := true];
      }
    }

    /** Attempts are left: the successor is created and the run requeued. */
    method Reschedule(k: AttemptId, code: string, delay: Time, now: Time)
      requires k in attempts && attempts[k].runId in runs && runs[attempts[k].runId].maxAttempts >= 1
      modifies this
      ensures View() == Rescheduled(old(View()), k, code, delay, now)
    {
      var a, r := attempts[k], attempts[k].runId;
      var run := runs[r];
      attempts := attempts[k := a.(status := AttemptFailed, errorCode := Some(code), completedAt := Some(now),
                                   leaseExpiresAt := None, version := a.version + 1)];
      var next := Retry(r, a.number + 1);
      if next !in attempts {
        attempts := attempts[next := Attempt(next, r, a.number + 1, Retryable, None, None, None, a.retryable, 0, None, now, None)];
      }
      runs := runs[r := run.(
        status := Queued, currentAttempt := a.number + 1,
        retryCount := if run.retryCount + 1 < run.maxAttempts then run.retryCount + 1 else run.maxAttempts - 1,
        nextRetryAt := Some(now + MaxReal(0.0, delay)))];
    }

    /** transition_failed_attempt: fails one fenced attempt and schedules its successor. */
    method Fail(k: AttemptId, worker: Option<WorkerId>, expectedVersion: nat, before: Option<Time>,
                now: Time, delay: Time, code: string) returns (outcome: FailOutcome)
      modifies this
      ensures old(Valid()) ==> Valid()
      ensures (View(), outcome) == RunModel.Fail(old(View()), k, worker, expectedVersion, before, now, delay, code)
      ensures old(Valid()) && !outcome.Stale? ==>
        && k in old(attempts) && k.run in old(runs)
        && (outcome.WillRetry? <==> old(attempts)[k].retryable && old(attempts)[k].number < old(runs)[k.run].maxAttempts)
    {
      hide Inv, GivenUp, Rescheduled;
      if Valid() {
        FailKeeps(View(), k, worker, expectedVersion, before, now, delay, code);
        Retried(View(), k, worker, expectedVersion, before, now, delay, code);
      }
      if k !in attempts || !attempts[k].status.Leased? || attempts[k].version != expectedVersion
         || (worker.Some? && attempts[k].workerId != worker)
         || (before.Some? && (attempts[k].leaseExpiresAt.None? || attempts[k].leaseExpiresAt.value > before.value))
         || attempts[k].runId !in runs
      {
        return Stale;
      }
      var a, run := attempts[k], runs[attempts[k].runId];
      if run.status.Cancelled? {
        attempts := attempts[k := a.(status := AttemptCancelled, completedAt := Some(now), leaseExpiresAt := None, version := a.version + 1)];
        return RunWasCancelled;
      }
      if !a.retryable || a.number >= run.maxAttempts {
        GiveUp(k, code, now);
        return FailedForGood;
      }
      Reschedule(k, code, delay, now);
      return WillRetry;
    }

    /** A user's cancel brings its terminal event; an internal one brings none. */
    method Cancel(r: RunId, draft: Option<Event>, now: Time) returns (cancelled: bool)
      modifies this
      ensures old(Valid()) && draft.Some? && TerminalId(draft.value.id) && draft.value.eventType.RunCancelled? ==> Valid()
      ensures (View(), cancelled) == RunModel.Cancel(old(View()), r, draft, now)
    {
      hide Inv, AppendNext, CancelAttempts, HasId;
      if Valid() && draft.Some? && TerminalId(draft.value.id) && draft.value.eventType.RunCancelled? {
        CancelKeeps(View(), r, draft.value, now);
      }
      if r !in runs || runs[r].status.Completed? || runs[r].status.Failed? || runs[r].status.Cancelled? {
        return false;
      }
      if draft.Some? {
        var existing := FindId(r, draft.value.id);
        WriteOnce(r, draft.value.(completedAt := Some(now)), existing);
      }
      runs := runs[r := runs[r].(status := Cancelled, cancelRequestedAt := Some(now), completedAt := Some(now))];
      CancelLiveAttempts(r, now);
      if r in outbox {
        outbox := outbox[r := true];
      }
      return true;
    }

    /** The loop over the attempts of a cancelled run. */
    method CancelLiveAttempts(r: RunId, now: Time)
      modifies this`attempts
      ensures attempts == CancelAttempts(old(attempts), r, now)
    {
      ghost var before := attempts;
      var rest := attempts.Keys;
      while rest != {}
        invariant rest <= before.Keys && attempts.Keys == before.Keys
        invariant forall k :: k in rest ==> attempts[k] == before[k]
        invariant forall k :: k in before && k !in rest ==> attempts[k] == CancelAttempts(before, r, now)[k]
        decreases |rest|
      {
        var k :| k in rest;
        rest := rest - {k};
        if attempts[k].runId == r && Live(attempts[k].status) {
          attempts := attempts[k := Closed(attempts[k], AttemptCancelled, attempts[k].errorCode, now)];
        }
      }
    }

    method AppendEvent(e: Event) returns (outcome: AppendOutcome)
      modifies this
      ensures (View(), outcome) == RunModel.AppendEvent(old(View()), e)
      ensures old(Valid()) && !TerminalId(e.id) && !TerminalType(e.eventType) ==> Valid()
    {
      hide Inv, PlaceNext, HasId;
      if Valid() && !TerminalId(e.id) && !TerminalType(e.eventType) {
        AppendKeeps(View(), e);
      }
      var existing := FindId(e.runId, e.id);
      var log := if e.runId in events then events[e.runId] else [];
      if existing {
        events := events[e.runId := log];
        return AlreadyThere;
      }
      var last := if log == [] then 0 else log[|log| - 1].sequence;
      if e.sequence == 0 {
        Place(e.runId, e.(sequence := last + 1));
        return Appended;
      } else if e.sequence <= last {
        events := events[e.runId := log];
        return OutOfOrder;
      }
      Place(e.runId, e);
      return Appended;
    }

    method MarkPublished(r: RunId)
      requires Valid()
      modifies this
      ensures Valid() && View() == RunModel.MarkPublished(old(View()), r)
    {
      hide Inv;
      PublishKeeps(View(), r);
      if r in outbox {
        outbox := outbox[r := true];
      }
    }

    /** list_recoverable: the recoverable attempts by start time, at most max(1, limit) of them. */
    method ListRecoverable(now: Time, limit: int) returns (listed: seq<Attempt>)
      requires Valid()
      ensures forall i :: 0 <= i < |listed| ==> Recoverable(View(), listed[i].id, now) && attempts[listed[i].id] == listed[i]
      ensures forall i, j :: 0 <= i < j < |listed| ==> listed[i].id != listed[j].id && listed[i].startedAt <= listed[j].startedAt
      ensures |listed| <= if limit < 1 then 1 else limit
      ensures forall k :: Recoverable(View(), k, now) && !Lists(listed, k) ==>
        && |listed| == (if limit < 1 then 1 else limit)
        && (forall i :: 0 <= i < |listed| ==> listed[i].startedAt <= attempts[k].startedAt)
    {
      KeysAreIds();
      hide Inv, Lists;
      var keys := set k | k in attempts && Recoverable(State(runs, attempts, events, outbox), k, now);
      listed := FirstByStart(attempts, keys, if limit < 1 then 1 else limit);
    }

    lemma KeysAreIds()
      requires Valid()
      ensures forall k :: k in attempts ==> attempts[k].id == k
    {
    }
  }

  /** sorted(items, key=started_at)[:size], for any order among equal start times. */
  method FirstByStart(attempts: map<AttemptId, Attempt>, keys: set<AttemptId>, size: nat) returns (listed: seq<Attempt>)
    requires keys <= attempts.Keys && forall k :: k in attempts ==> attempts[k].id == k
    ensures forall i :: 0 <= i < |listed| ==> listed[i].id in keys && attempts[listed[i].id] == listed[i]
    ensures forall i, j :: 0 <= i < j < |listed| ==> listed[i].id != listed[j].id && listed[i].startedAt <= listed[j].startedAt
    ensures |listed| <= size
    ensures forall k :: k in keys && !Lists(listed, k) ==>
      |listed| == size && (forall i :: 0 <= i < |listed| ==> listed[i].startedAt <= attempts[k].startedAt)
  {
    hide Lists;
    var rest := keys;
    listed := [];
    while rest != {} && |listed| < size
      invariant |listed| <= size && rest <= keys
      invariant forall i :: 0 <= i < |listed| ==> listed[i].id in keys && attempts[listed[i].id] == listed[i]
      invariant forall i, j :: 0 <= i < j < |listed| ==> listed[i].id != listed[j].id && listed[i].startedAt <= listed[j].startedAt
      invariant forall i, k :: 0 <= i < |listed| && k in rest ==> listed[i].id != k && listed[i].startedAt <= attempts[k].startedAt
      invariant forall k :: k in keys && k !in rest ==> Lists(listed, k)
      decreases |rest|
    {
      var k := Earliest(attempts, rest);
      rest := rest - {k};
      forall j ensures Lists(listed + [attempts[k]], j) <==> Lists(listed, j) || j == k { ListsSnoc(listed, attempts[k], j); }
      listed := listed + [attempts[k]];
    }
  }

  method Earliest(attempts: map<AttemptId, Attempt>, keys: set<AttemptId>) returns (k: AttemptId)
    requires keys != {} && keys <= attempts.Keys
    ensures k in keys && forall j :: j in keys ==> attempts[k].startedAt <= attempts[j].startedAt
  {
    k :| k in keys;
    var rest := keys - {k};
    while rest != {}
      invariant k in keys && rest <= keys
      invariant forall j :: j in keys && j !in rest ==> attempts[k].startedAt <= attempts[j].startedAt
      decreases |rest|
    {
      var j :| j in rest;
      rest := rest - {j};
      if attempts[j].startedAt < attempts[k].startedAt {
        k := j;
      }
    }
  }

  /** The type of the last event of a run's log. */
  function LastType(events: map<RunId, seq<Event>>, r: RunId): Option<EventType> {
    if r in events && events[r] != [] then Some(events[r][|events[r]| - 1].eventType) else None
  }

  lemma CommittedTypes(s: State, k: AttemptId, worker: WorkerId, version: nat, requested: RunStatus,
                       draft: Event, code: Option<string>, now: Time)
    requires Inv(s) && Terminal(requested) && TerminalId(draft.id)
    ensures var (s', committed) := Finalize(s, k, worker, version, requested, draft, code, now);
      committed ==>
        && k.run in s'.runs && s'.runs[k.run].status == requested && k in s'.attempts
        && (requested.Completed? ==> s'.attempts[k].status.AttemptCompleted? && LastType(s'.events, k.run) == Some(RunCompleted))
        && (requested.Failed? ==> s'.attempts[k].status.AttemptFailed? && LastType(s'.events, k.run) == Some(RunFailed))
        && (requested.Cancelled? ==> s'.attempts[k].status.AttemptCancelled? && LastType(s'.events, k.run) == Some(RunCancelled))
  {
    hide Inv, Finalize, OnlyRun, IsMaxThreadSequence;
    FinalizeKeeps(s, k, worker, version, requested, draft, code, now);
    if HoldsToken(s, k, worker, version) {
      var e := CommitEffect(s, k, worker, version, requested, draft, code, now);
    }
  }

  lemma Retried(s: State, k: AttemptId, worker: Option<WorkerId>, version: nat, before: Option<Time>,
                now: Time, delay: Time, code: string)
    requires Inv(s)
    ensures var outcome := Fail(s, k, worker, version, before, now, delay, code).1;
      !outcome.Stale? ==>
        && k in s.attempts && k.run in s.runs
        && (outcome.WillRetry? <==> s.attempts[k].retryable && s.attempts[k].number < s.runs[k.run].maxAttempts)
  {
    hide Inv, Fail, OnlyRun;
    FailDecides(s, k, worker, version, before, now, delay, code);
    if k in s.attempts {
      Fits(s, k);
    }
  }
}
