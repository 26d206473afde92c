/**
 The invariant of the durable-run store, and the proof that every step keeps it.
 It has three independent parts: runs against attempts, runs against logs, and
 thread sequences across logs.
 */
module RunInvariant {
  import opened Wrappers
  import opened RunModel

  type Runs = map<RunId, Run>
  type Attempts = map<AttemptId, Attempt>
  type Logs = map<RunId, seq<Event>>

  // -------------------------------------------------------------- attempts

  function NumberOf(k: AttemptId): nat {
    if k.First? then 1 else k.number
  }

  function IdOf(r: RunId, n: nat): AttemptId {
    if n == 1 then First(r) else Retry(r, n)
  }

  /** An attempt sits under its own number, and is live exactly when it is the
      current attempt of a run that is not over. */
  predicate AttemptFits(k: AttemptId, a: Attempt, run: Run) {
    && a.id == k && a.runId == k.run && a.number == NumberOf(k)
    && (k.Retry? ==> k.number >= 2)
    && 1 <= a.number <= run.currentAttempt
    && (Live(a.status) <==> a.number == run.currentAttempt && !Terminal(run.status))
    && (a.status.Leased? <==> a.leaseExpiresAt.Some?)
    && (a.status.Leased? ==> a.workerId.Some?)
  }

  predicate RunFits(run: Run) {
    && 1 <= run.currentAttempt <= run.maxAttempts
    && run.retryCount == run.currentAttempt - 1
    && !run.status.Waiting?
  }

  ghost predicate AttemptsInv(runs: Runs, attempts: Attempts) {
    && (forall k :: k in attempts ==> k.run in runs && AttemptFits(k, attempts[k], runs[k.run]))
    && (forall r :: r in runs ==> RunFits(runs[r]))
    && (forall r, n: nat {:trigger IdOf(r, n)} :: r in runs && 1 <= n <= runs[r].currentAttempt ==> IdOf(r, n) in attempts)
  }

  // ------------------------------------------------------------------- logs

  /** The terminal events of a log, in order. */
  ghost function TerminalEvents(log: seq<Event>): seq<Event> {
    if log == [] then []
    else
      var last := log[|log| - 1];
      TerminalEvents(log[..|log| - 1]) + if TerminalType(last.eventType) then [last] else []
  }

  lemma TerminalEventsSnoc(log: seq<Event>, e: Event)
    ensures TerminalEvents(log + [e]) == TerminalEvents(log) + if TerminalType(e.eventType) then [e] else []
  {
    assert (log + [e])[..|log|] == log;
  }

  lemma {:induction false} NoTerminalEvents(log: seq<Event>)
    ensures TerminalEvents(log) == [] <==> forall i :: 0 <= i < |log| ==> !TerminalType(log[i].eventType)
  {
    if log != [] {
      var init := log[..|log| - 1];
      NoTerminalEvents(init);
      assert forall i :: 0 <= i < |init| ==> log[i] == init[i];
    }
  }

  ghost predicate LogOk(log: seq<Event>) {
    && (forall i :: 0 <= i < |log| ==> log[i].sequence > 0 && log[i].threadSequence > 0)
    && (forall i, j :: 0 <= i < j < |log| ==> log[i].sequence < log[j].sequence && log[i].id != log[j].id)
    && (forall i, j :: 0 <= i < j < |log| && log[i].threadId == log[j].threadId ==>
          log[i].threadSequence < log[j].threadSequence)
    && (forall i :: 0 <= i < |log| ==> (TerminalId(log[i].id) <==> TerminalType(log[i].eventType)))
  }

  /** The type of the terminal event a run owes its log: none while it is not over. */
  function Outcome(runs: Runs, r: RunId): Option<EventType> {
    if r in runs && Terminal(runs[r].status) then Some(TypeFor(runs[r].status)) else None
  }

  ghost predicate LogFits(log: seq<Event>, outcome: Option<EventType>) {
    && LogOk(log)
    && var terminal := TerminalEvents(log);
       match outcome
       case None => terminal == []
       case Some(t) => |terminal| == 1 && terminal[0].eventType == t
  }

  ghost predicate LogsInv(runs: Runs, logs: Logs) {
    forall r :: LogFits(Log(logs, r), Outcome(runs, r))
  }

  ghost predicate OutboxInv(runs: Runs, outbox: map<RunId, bool>) {
    forall r :: r in outbox && Outcome(runs, r).Some? ==> outbox[r]
  }

  /** Two events of one thread never share a thread sequence, whatever run they belong to. */
  ghost predicate ThreadsInv(logs: Logs) {
    forall r, i, r', i' :: InLog(logs, r, i) && InLog(logs, r', i') && (r != r' || i != i')
      && logs[r][i].threadId == logs[r'][i'].threadId
      ==> logs[r][i].threadSequence != logs[r'][i'].threadSequence
  }

  ghost predicate Inv(s: State) {
    && AttemptsInv(s.runs, s.attempts)
    && LogsInv(s.runs, s.events)
    && OutboxInv(s.runs, s.outbox)
    && ThreadsInv(s.events)
  }

  // ---------------------------------------------------- log-level preservation

  /** `logs'` is `logs` with `e` added at the end of the log of `r`, its thread
      sequence above every one already used in its thread. */
  ghost predicate Added(logs: Logs, r: RunId, e: Event, logs': Logs) {
    && logs' == logs[r := Log(logs, r) + [e]]
    && e.threadSequence > 0
    && (forall q, i :: InLog(logs, q, i) && logs[q][i].threadId == e.threadId ==> logs[q][i].threadSequence < e.threadSequence)
  }

  lemma PlaceNextAdds(s: State, r: RunId, e: Event) returns (e': Event)
    ensures e' == e.(threadSequence := e'.threadSequence)
    ensures Added(s.events, r, e', PlaceNext(s, r, e).events)
    ensures PlaceNext(s, r, e) == s.(events := PlaceNext(s, r, e).events)
  {
    MaxThreadSequenceExists(s.events, e.threadId);
    var n: nat :| IsMaxThreadSequence(s.events, e.threadId, n)
                  && PlaceNext(s, r, e) == s.(events := s.events[r := Log(s.events, r) + [e.(threadSequence := n + 1)]]);
    e' := e.(threadSequence := n + 1);
  }

  lemma AddedKeepsThreads(logs: Logs, r: RunId, e: Event, logs': Logs)
    requires ThreadsInv(logs) && Added(logs, r, e, logs')
    ensures ThreadsInv(logs')
  {
    var n := |Log(logs, r)|;
    forall q, i, q', i' | InLog(logs', q, i) && InLog(logs', q', i') && (q != q' || i != i')
                          && logs'[q][i].threadId == logs'[q'][i'].threadId
      ensures logs'[q][i].threadSequence != logs'[q'][i'].threadSequence
    {
      assert !(q == r && i == n) ==> InLog(logs, q, i) && logs[q][i] == logs'[q][i];
      assert !(q' == r && i' == n) ==> InLog(logs, q', i') && logs[q'][i'] == logs'[q'][i'];
    }
  }

  lemma AddedKeepsLogOk(logs: Logs, r: RunId, e: Event, logs': Logs)
    requires LogOk(Log(logs, r)) && Added(logs, r, e, logs')
    requires e.sequence > LastSequence(Log(logs, r)) && !HasId(Log(logs, r), e.id)
    requires TerminalId(e.id) <==> TerminalType(e.eventType)
    ensures LogOk(Log(logs', r))
  {
    hide TerminalEvents;
    var log := Log(logs, r);
    forall i | 0 <= i < |log|
      ensures log[i].sequence < e.sequence && log[i].id != e.id
      ensures log[i].threadId == e.threadId ==> log[i].threadSequence < e.threadSequence
    {
      assert InLog(logs, r, i);
    }
  }

  /** An ordinary event may be added to any log. */
  lemma AddOrdinary(runs: Runs, logs: Logs, r: RunId, e: Event, logs': Logs)
    requires LogsInv(runs, logs) && Added(logs, r, e, logs')
    requires e.sequence > LastSequence(Log(logs, r)) && !HasId(Log(logs, r), e.id)
    requires !TerminalId(e.id) && !TerminalType(e.eventType)
    ensures LogsInv(runs, logs')
  {
    hide LogOk, TerminalEvents;
    assert LogFits(Log(logs, r), Outcome(runs, r));
    AddedKeepsLogOk(logs, r, e, logs');
    TerminalEventsSnoc(Log(logs, r), e);
    forall q ensures LogFits(Log(logs', q), Outcome(runs, q)) {
      assert LogFits(Log(logs, q), Outcome(runs, q));
    }
  }

  /** While a run is not over, no terminal identifier and no terminal type is in its log. */
  lemma NoTerminalYet(runs: Runs, logs: Logs, r: RunId)
    requires LogsInv(runs, logs) && Outcome(runs, r).None?
    ensures forall i :: 0 <= i < |Log(logs, r)| ==> !TerminalType(Log(logs, r)[i].eventType) && !TerminalId(Log(logs, r)[i].id)
  {
    assert LogFits(Log(logs, r), Outcome(runs, r));
    NoTerminalEvents(Log(logs, r));
  }

  /** Ending a run: its terminal event goes in as its status becomes terminal. */
  lemma AddOutcome(runs: Runs, logs: Logs, r: RunId, e: Event, runs': Runs, logs': Logs)
    requires LogsInv(runs, logs) && Added(logs, r, e, logs')
    requires Outcome(runs, r).None? && Outcome(runs', r) == Some(e.eventType)
    requires forall q :: q != r ==> Outcome(runs', q) == Outcome(runs, q)
    requires e.sequence > LastSequence(Log(logs, r)) && !HasId(Log(logs, r), e.id)
    requires TerminalId(e.id) && TerminalType(e.eventType)
    ensures LogsInv(runs', logs')
  {
    hide LogOk, TerminalEvents;
    assert LogFits(Log(logs', r), Outcome(runs', r)) by {
      assert LogFits(Log(logs, r), Outcome(runs, r));
      AddedKeepsLogOk(logs, r, e, logs');
      TerminalEventsSnoc(Log(logs, r), e);
    }
    forall q ensures LogFits(Log(logs', q), Outcome(runs', q)) {
      if q != r {
        assert LogFits(Log(logs, q), Outcome(runs, q));
        assert Log(logs', q) == Log(logs, q);
      }
    }
  }

  /** Steps that leave the logs and every run's outcome alone. */
  lemma SameOutcomes(runs: Runs, logs: Logs, runs': Runs, outbox: map<RunId, bool>)
    requires LogsInv(runs, logs) && OutboxInv(runs, outbox)
    requires forall q :: Outcome(runs', q) == Outcome(runs, q)
    ensures LogsInv(runs', logs) && OutboxInv(runs', outbox)
  {
    hide LogFits;
    forall q ensures LogFits(Log(logs, q), Outcome(runs', q)) {
      assert LogFits(Log(logs, q), Outcome(runs, q));
    }
  }

  /** Creating the empty log of a run changes nothing. */
  lemma TouchedLog(runs: Runs, logs: Logs, r: RunId)
    requires LogsInv(runs, logs) && ThreadsInv(logs)
    ensures LogsInv(runs, logs[r := Log(logs, r)]) && ThreadsInv(logs[r := Log(logs, r)])
  {
    hide LogFits;
    var logs' := logs[r := Log(logs, r)];
    forall q ensures LogFits(Log(logs', q), Outcome(runs, q)) {
      assert LogFits(Log(logs, q), Outcome(runs, q));
      assert Log(logs', q) == Log(logs, q);
    }
    assert forall q, i :: InLog(logs', q, i) ==> InLog(logs, q, i) && logs'[q][i] == logs[q][i];
  }

  // ------------------------------------------------- attempt-level preservation

  /** In a good state the newest attempt of a run is the current one. */
  lemma NewestIsCurrent(s: State, r: RunId, k: AttemptId)
    requires AttemptsInv(s.runs, s.attempts) && IsNewest(s, r, k)
    ensures r in s.runs && k == IdOf(r, s.runs[r].currentAttempt)
  {
    assert k.run in s.runs && AttemptFits(k, s.attempts[k], s.runs[k.run]);
    var c := IdOf(r, s.runs[r].currentAttempt);
    assert c in s.attempts && AttemptFits(c, s.attempts[c], s.runs[r]);
  }

  lemma CurrentIsNewest(s: State, r: RunId)
    requires AttemptsInv(s.runs, s.attempts) && r in s.runs
    ensures IsNewest(s, r, IdOf(r, s.runs[r].currentAttempt))
  {
    var c := IdOf(r, s.runs[r].currentAttempt);
    assert c in s.attempts && AttemptFits(c, s.attempts[c], s.runs[r]);
  }

  /** A new run with its first attempt. */
  lemma AddRun(runs: Runs, attempts: Attempts, r: RunId, run: Run, a: Attempt)
    requires AttemptsInv(runs, attempts) && r !in runs
    requires run.currentAttempt == 1 && RunFits(run) && AttemptFits(First(r), a, run)
    ensures AttemptsInv(runs[r := run], attempts[First(r) := a])
  {
    assert First(r) == IdOf(r, 1);
  }

  /** A change to one attempt that fits its run, with runs untouched. */
  lemma ReplaceAttempt(runs: Runs, attempts: Attempts, k: AttemptId, a: Attempt)
    requires AttemptsInv(runs, attempts) && k in attempts
    requires k.run in runs && AttemptFits(k, a, runs[k.run])
    ensures AttemptsInv(runs, attempts[k := a])
  {
  }

  /** A change to one run that keeps its numbering and whether it is over. */
  lemma ReplaceRun(runs: Runs, attempts: Attempts, r: RunId, run: Run)
    requires AttemptsInv(runs, attempts) && r in runs
    requires run.currentAttempt == runs[r].currentAttempt && RunFits(run)
    requires Terminal(run.status) <==> Terminal(runs[r].status)
    ensures AttemptsInv(runs[r := run], attempts)
  {
  }

  /** Closing every live attempt of a run together with the run. */
  lemma EndRun(runs: Runs, attempts: Attempts, r: RunId, run: Run, attempts': Attempts)
    requires AttemptsInv(runs, attempts) && r in runs
    requires run.currentAttempt == runs[r].currentAttempt && RunFits(run) && Terminal(run.status)
    requires attempts'.Keys == attempts.Keys
    requires forall k :: k in attempts && k.run != r ==> attempts'[k] == attempts[k]
    requires forall k :: k in attempts && k.run == r && !Live(attempts[k].status) ==> attempts'[k] == attempts[k]
    requires forall k :: k in attempts && k.run == r && Live(attempts[k].status) ==>
      exists st, code, now :: !Live(st) && attempts'[k] == Closed(attempts[k], st, code, now)
    ensures AttemptsInv(runs[r := run], attempts')
  {
    var runs' := runs[r := run];
    forall k | k in attempts'
      ensures k.run in runs' && AttemptFits(k, attempts'[k], runs'[k.run])
    {
      assert AttemptFits(k, attempts[k], runs[k.run]);
    }
  }

  /** Only the current attempt of a run is live. */
  lemma LiveIsCurrent(runs: Runs, attempts: Attempts, k: AttemptId)
    requires AttemptsInv(runs, attempts) && k in attempts && Live(attempts[k].status)
    ensures k.run in runs && k == IdOf(k.run, runs[k.run].currentAttempt) && !Terminal(runs[k.run].status)
    ensures forall j :: j in attempts && j.run == k.run && j != k ==> !Live(attempts[j].status)
  {
    assert AttemptFits(k, attempts[k], runs[k.run]);
    forall j | j in attempts && j.run == k.run && j != k
      ensures !Live(attempts[j].status)
    {
      assert AttemptFits(j, attempts[j], runs[j.run]);
    }
  }

  /** The successor of a failed attempt takes the next number, which is free. */
  lemma RetryRun(runs: Runs, attempts: Attempts, k: AttemptId, code: string, now: Time, run: Run, successor: Attempt)
    requires AttemptsInv(runs, attempts) && k in attempts && Live(attempts[k].status)
    requires k.run in runs && run.currentAttempt == runs[k.run].currentAttempt + 1 && RunFits(run) && !Terminal(run.status)
    requires var next := Retry(k.run, run.currentAttempt); AttemptFits(next, successor, run)
    ensures Retry(k.run, run.currentAttempt) !in attempts
    ensures AttemptsInv(runs[k.run := run],
                        attempts[k := Closed(attempts[k], AttemptFailed, Some(code), now)][Retry(k.run, run.currentAttempt) := successor])
  {
    LiveIsCurrent(runs, attempts, k);
    var r := k.run;
    var next := Retry(r, run.currentAttempt);
    var a := Closed(attempts[k], AttemptFailed, Some(code), now);
    var runs', attempts' := runs[r := run], attempts[k := a][next := successor];
    assert next in attempts ==> AttemptFits(next, attempts[next], runs[r]);
    forall j | j in attempts'
      ensures j.run in runs' && AttemptFits(j, attempts'[j], runs'[j.run])
    {
      assert j != next ==> AttemptFits(j, attempts[j], runs[j.run]);
    }
    forall q, n: nat | q in runs' && 1 <= n <= runs'[q].currentAttempt
      ensures IdOf(q, n) in attempts'
    {
    }
  }
}
