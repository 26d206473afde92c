/**
 Whole executions of the durable-run store: any interleaving of submissions,
 workers, recovery scans and users, as a sequence of states and steps.
 */
module RunTraces {
  import opened Wrappers
  import opened RunModel
  import opened RunInvariant
  import opened RunSteps

  datatype Step =
    | Submitting(run: RunId, thread: string, maxAttempts: nat, retryable: bool, now: Time)
    | Claiming(run: RunId, worker: WorkerId, lease: Time, now: Time)
    | Beating(attempt: AttemptId, worker: WorkerId, lease: Time, version: nat, now: Time)
    | Starting(run: RunId, now: Time)
    | Finalizing(attempt: AttemptId, worker: WorkerId, version: nat, requested: RunStatus, draft: Event, error: Option<string>, now: Time)
    | HolderFailing(attempt: AttemptId, worker: WorkerId, version: nat, delay: Time, code: string, now: Time)
    | ScanFailing(attempt: AttemptId, version: nat, delay: Time, code: string, now: Time)
    | ScanReaping(attempt: AttemptId, version: nat, now: Time)
    | Cancelling(run: RunId, draft: Event, now: Time)
    | Appending(event: Event, now: Time)
    | Publishing(run: RunId, now: Time)

  /** What the callers of the store guarantee: fresh run identifiers, executors that
      report a terminal status, terminal identifiers only on terminal events. */
  predicate Enabled(s: State, step: Step) {
    match step
    case Submitting(r, _, maxAttempts, _, _) => r !in s.runs && maxAttempts >= 1
    case Finalizing(_, _, _, requested, draft, _, _) => Terminal(requested) && TerminalId(draft.id)
    case ScanReaping(k, _, _) => k in s.attempts ==> k.run in s.runs && s.runs[k.run].status.Cancelled?
    case Cancelling(_, draft, _) => TerminalId(draft.id) && draft.eventType.RunCancelled?
    case Appending(e, _) => !TerminalId(e.id) && !TerminalType(e.eventType)
    case _ => true
  }

  ghost function Next(s: State, step: Step): State {
    match step
    case Submitting(r, thread, maxAttempts, retryable, now) => Submit(s, r, thread, maxAttempts, retryable, now)
    case Claiming(r, worker, lease, now) => Claim(s, r, worker, lease, now).0
    case Beating(k, worker, lease, version, now) => Heartbeat(s, k, worker, lease, Some(version), now).0
    case Starting(r, now) => SetStatus(s, r, {Queued}, Running, now).0
    case Finalizing(k, worker, version, requested, draft, code, now) => Finalize(s, k, worker, version, requested, draft, code, now).0
    case HolderFailing(k, worker, version, delay, code, now) => Fail(s, k, Some(worker), version, None, now, delay, code).0
    case ScanFailing(k, version, delay, code, now) => Fail(s, k, None, version, Some(now), now, delay, code).0
    case ScanReaping(k, version, now) => ReapCancelled(s, k, version, now, now)
    case Cancelling(r, draft, now) => Cancel(s, r, Some(draft), now).0
    case Appending(e, _) => AppendEvent(s, e).0
    case Publishing(r, _) => MarkPublished(s, r)
  }

  lemma NextKeeps(s: State, step: Step)
    requires Inv(s) && Enabled(s, step)
    ensures Inv(Next(s, step))
  {
    hide Inv, Submit, Claim, Heartbeat, SetStatus, Finalize, Fail, ReapCancelled, Cancel, AppendEvent, MarkPublished;
    match step
    case Submitting(r, thread, maxAttempts, retryable, now) => SubmitKeeps(s, r, thread, maxAttempts, retryable, now);
    case Claiming(r, worker, lease, now) => ClaimKeeps(s, r, worker, lease, now);
    case Beating(k, worker, lease, version, now) => HeartbeatKeeps(s, k, worker, lease, Some(version), now);
    case Starting(r, now) => StartKeeps(s, r, now);
    case Finalizing(k, worker, version, requested, draft, code, now) => FinalizeKeeps(s, k, worker, version, requested, draft, code, now);
    case HolderFailing(k, worker, version, delay, code, now) => FailKeeps(s, k, Some(worker), version, None, now, delay, code);
    case ScanFailing(k, version, delay, code, now) => FailKeeps(s, k, None, version, Some(now), now, delay, code);
    case ScanReaping(k, version, now) => ReapIsVoid(s, k, version, now, now);
    case Cancelling(r, draft, now) => CancelKeeps(s, r, draft, now);
    case Appending(e, _) => AppendKeeps(s, e);
    case Publishing(r, _) => PublishKeeps(s, r);
  }

  ghost predicate Execution(states: seq<State>, steps: seq<Step>) {
    && |states| == |steps| + 1
    && states[0] == Empty
    && (forall i :: 0 <= i < |steps| ==> Enabled(states[i], steps[i]) && states[i + 1] == Next(states[i], steps[i]))
  }

  /** The invariant holds in every reachable state. */
  lemma {:induction false} AlwaysInv(states: seq<State>, steps: seq<Step>, i: nat)
    requires Execution(states, steps) && i < |states|
    ensures Inv(states[i])
  {
    hide Next, Enabled, Inv;
    if i == 0 {
      assert Inv(Empty) by { EmptyInv(); }
    } else {
      AlwaysInv(states, steps, i - 1);
      NextKeeps(states[i - 1], steps[i - 1]);
    }
  }

  lemma EmptyInv()
    ensures Inv(Empty)
  {
    assert forall r :: Log(Empty.events, r) == [];
  }

  // -------------------------------------------------- numbering and liveness

  /** The numbers of the attempts of a run, and those that are live. */
  ghost function Numbers(s: State, r: RunId): set<nat> {
    set k | k in s.attempts && s.attempts[k].runId == r :: s.attempts[k].number
  }

  ghost function LiveAttempts(s: State, r: RunId): set<AttemptId> {
    set k | k in s.attempts && s.attempts[k].runId == r && Live(s.attempts[k].status)
  }

  /** At every reachable state a run's attempts are numbered exactly 1..currentAttempt, each
      number once; a run that is not over has exactly one live attempt, the highest-numbered
      one, and a run that is over has none. */
  lemma AttemptNumbering(states: seq<State>, steps: seq<Step>, i: nat, r: RunId)
    requires Execution(states, steps) && i < |states| && r in states[i].runs
    ensures var s, run := states[i], states[i].runs[r];
      && 1 <= run.currentAttempt <= run.maxAttempts
      && run.retryCount == run.currentAttempt - 1
      && (forall n: nat :: n in Numbers(s, r) <==> 1 <= n <= run.currentAttempt)
      && (forall k, k' | k in s.attempts && k' in s.attempts ::
            s.attempts[k].runId == r == s.attempts[k'].runId && s.attempts[k].number == s.attempts[k'].number ==> k == k')
      && LiveAttempts(s, r) == (if Terminal(run.status) then {} else {IdOf(r, run.currentAttempt)})
      && (var c := IdOf(r, run.currentAttempt); c in s.attempts && s.attempts[c].number == run.currentAttempt)
  {
    AlwaysInv(states, steps, i);
    hide LogsInv, ThreadsInv, OutboxInv, Execution;
    var s, run := states[i], states[i].runs[r];
    assert RunFits(run);
    assert forall k :: k in s.attempts ==> AttemptFits(k, s.attempts[k], s.runs[k.run]);
    forall n: nat | 1 <= n <= run.currentAttempt ensures n in Numbers(s, r) {
      assert s.attempts[IdOf(r, n)].number == n;
    }
    var c := IdOf(r, run.currentAttempt);
    assert c in s.attempts;
  }

  /** At every reachable state the log of a completed run holds exactly one terminal event, and it
      is run.completed; likewise for a failed and for a cancelled run; and its outbox row is
      published. The log of a run that is not over holds no terminal event. */
  lemma OutcomeInLog(states: seq<State>, steps: seq<Step>, i: nat, r: RunId)
    requires Execution(states, steps) && i < |states| && r in states[i].runs
    ensures var s := states[i]; var terminal := TerminalEvents(Log(s.events, r));
      match s.runs[r].status
      case Completed => |terminal| == 1 && terminal[0].eventType == RunCompleted && (r in s.outbox ==> s.outbox[r])
      case Failed => |terminal| == 1 && terminal[0].eventType == RunFailed && (r in s.outbox ==> s.outbox[r])
      case Cancelled => |terminal| == 1 && terminal[0].eventType == RunCancelled && (r in s.outbox ==> s.outbox[r])
      case _ => terminal == []
  {
    AlwaysInv(states, steps, i);
    hide AttemptsInv, ThreadsInv, Execution, LogOk;
    assert LogFits(Log(states[i].events, r), Outcome(states[i].runs, r));
  }
}
