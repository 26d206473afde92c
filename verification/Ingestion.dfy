/** Ingesting a finished mission's events into the run's log: idempotent, and lossless but for
    events the mission itself numbered and named alike. */
module Ingestion {
  import opened Wrappers
  import opened RunModel
  import opened RunInvariant
  import opened RunSteps
  import opened RunRepository
  import opened EventMapping

  /** What one call ingests, and for whom. `typeOf` is the mapping of kinds, EventTypeFor in
      version 1; nothing below depends on which. */
  datatype Batch = Batch(
    run: RunId,
    thread: string,
    attempt: string,
    typeOf: string -> Option<EventType>,
    excluded: set<EventType>,
    sources: seq<MissionEvent>)

  /** The types the executor excludes: the start and the end of a run are logged by the protocol. */
  const ProtocolTypes: set<EventType> := {RunStarted, RunCompleted, RunFailed, RunCancelled}

  predicate Wanted(b: Batch, e: MissionEvent) {
    b.typeOf(e.kind).Some? && b.typeOf(e.kind).value !in b.excluded
  }

  function IdAt(b: Batch, i: nat): EventId
    requires i < |b.sources|
  {
    Ordinary(MissionEventId(b.run, b.attempt, b.sources[i], i + 1))
  }

  function DraftAt(b: Batch, i: nat): Event
    requires i < |b.sources| && Wanted(b, b.sources[i])
  {
    Event(IdAt(b, i), b.run, b.thread, 0, 0, b.typeOf(b.sources[i].kind).value, None)
  }

  /** The store after the first `n` events went through. */
  ghost function Ingested(s: State, b: Batch, n: nat): State
    requires n <= |b.sources|
  {
    if n == 0 then s
    else if Wanted(b, b.sources[n - 1]) then AppendEvent(Ingested(s, b, n - 1), DraftAt(b, n - 1)).0
    else Ingested(s, b, n - 1)
  }

  /** What became of each wanted event: appended, or already there. */
  ghost function Outcomes(s: State, b: Batch, n: nat): seq<AppendOutcome>
    requires n <= |b.sources|
  {
    if n == 0 then []
    else if Wanted(b, b.sources[n - 1])
      then Outcomes(s, b, n - 1) + [AppendEvent(Ingested(s, b, n - 1), DraftAt(b, n - 1)).1]
    else Outcomes(s, b, n - 1)
  }

  /** The loop of ingest_mission_events, one repository append per wanted event. */
  method Ingest(repo: Repository, b: Batch) returns (outcomes: seq<AppendOutcome>)
    modifies repo
    ensures repo.View() == Ingested(old(repo.View()), b, |b.sources|)
    ensures old(repo.Valid()) && ProtocolTypes <= b.excluded ==> repo.Valid()
    ensures outcomes == Outcomes(old(repo.View()), b, |b.sources|)
  {
    hide Inv, AppendNext, PlaceNext, HasId;
    outcomes := [];
    for i := 0 to |b.sources|
      invariant repo.View() == Ingested(old(repo.View()), b, i)
      invariant old(repo.Valid()) && ProtocolTypes <= b.excluded ==> repo.Valid()
      invariant outcomes == Outcomes(old(repo.View()), b, i)
    {
      if Wanted(b, b.sources[i]) {
        var outcome := repo.AppendEvent(DraftAt(b, i));
        outcomes := outcomes + [outcome];
      }
    }
  }

  // ------------------------------------------------------------- idempotence

  /** One append: nothing but the log of the event's run changes, and that log then holds the id. */
  lemma AppendEffect(s: State, e: Event)
    requires e.sequence == 0
    ensures var s' := AppendEvent(s, e).0;
      && s' == s.(events := s'.events) && e.runId in s'.events
      && HasId(Log(s'.events, e.runId), e.id)
      && (if HasId(Log(s.events, e.runId), e.id) then Log(s'.events, e.runId) == Log(s.events, e.runId)
          else Log(s'.events, e.runId) != [] && Shape(Log(s'.events, e.runId)) == Shape(Log(s.events, e.runId)) + [e.(threadSequence := 0)])
      && (forall id :: HasId(Log(s.events, e.runId), id) ==> HasId(Log(s'.events, e.runId), id))
  {
    var log := Log(s.events, e.runId);
    if !HasId(log, e.id) {
      var placed := PlaceNextAdds(s, e.runId, e.(sequence := LastSequence(log) + 1));
      var log' := log + [placed];
      assert Log(AppendEvent(s, e).0.events, e.runId) == log';
      assert forall i :: 0 <= i < |log| ==> log'[i] == log[i];
      assert log'[|log|].id == e.id;
    }
  }

  /** A log without the numbers that appending assigns. */
  function Shape(log: seq<Event>): (shape: seq<Event>)
    ensures |shape| == |log|
  {
    seq(|log|, i requires 0 <= i < |log| => log[i].(sequence := 0, threadSequence := 0))
  }

  lemma {:induction false} IngestedHolds(s: State, b: Batch, n: nat, i: nat)
    requires i < n <= |b.sources| && Wanted(b, b.sources[i])
    ensures HasId(Log(Ingested(s, b, n).events, b.run), IdAt(b, i)) && b.run in Ingested(s, b, n).events
  {
    hide Wanted, IdAt, AppendEvent, HasId, Log;
    if Wanted(b, b.sources[n - 1]) {
      AppendEffect(Ingested(s, b, n - 1), DraftAt(b, n - 1));
    }
    if i < n - 1 {
      IngestedHolds(s, b, n - 1, i);
    }
  }

  /** A store that already holds every wanted id is left as it is. */
  lemma {:induction false} NothingToIngest(s: State, b: Batch, n: nat)
    requires n <= |b.sources|
    requires forall i | 0 <= i < n && Wanted(b, b.sources[i]) :: HasId(Log(s.events, b.run), IdAt(b, i)) && b.run in s.events
    ensures Ingested(s, b, n) == s
  {
    hide Wanted, IdAt, HasId, AppendNext, PlaceNext;
    if n > 0 {
      NothingToIngest(s, b, n - 1);
    }
  }

  /** Ingesting the same list again changes nothing. */
  lemma IngestTwice(s: State, b: Batch)
    ensures var once := Ingested(s, b, |b.sources|); Ingested(once, b, |b.sources|) == once
  {
    hide Wanted, IdAt, HasId, Log, Ingested;
    var n := |b.sources|;
    var once := Ingested(s, b, n);
    forall i | 0 <= i < n && Wanted(b, b.sources[i])
      ensures HasId(Log(once.events, b.run), IdAt(b, i)) && b.run in once.events
    {
      IngestedHolds(s, b, n, i);
    }
    NothingToIngest(once, b, n);
  }

  /** Nor does it later, however the run's log has grown in between. */
  lemma IngestAgainLater(s: State, b: Batch, later: State)
    requires b.run in later.events
    requires Log(Ingested(s, b, |b.sources|).events, b.run) <= Log(later.events, b.run)
    ensures Ingested(later, b, |b.sources|) == later
  {
    hide Wanted, IdAt, Log, Ingested;
    var n := |b.sources|;
    var log, log' := Log(Ingested(s, b, n).events, b.run), Log(later.events, b.run);
    forall i | 0 <= i < n && Wanted(b, b.sources[i]) ensures HasId(log', IdAt(b, i)) {
      IngestedHolds(s, b, n, i);
      var j :| 0 <= j < |log| && log[j].id == IdAt(b, i);
      assert log'[j] == log[j];
    }
    NothingToIngest(later, b, n);
  }

  /** Ingestion keeps the invariant of the store: run sequences strictly increase, thread
      sequences are never shared, and no terminal event gets in. */
  lemma {:induction false} IngestKeeps(s: State, b: Batch, n: nat)
    requires Inv(s) && n <= |b.sources| && ProtocolTypes <= b.excluded
    ensures Inv(Ingested(s, b, n))
  {
    hide Inv, AppendEvent;
    if n > 0 {
      IngestKeeps(s, b, n - 1);
      if Wanted(b, b.sources[n - 1]) {
        AppendKeeps(Ingested(s, b, n - 1), DraftAt(b, n - 1));
      }
    }
  }

  // --------------------------------------------------------- what gets dropped

  /** An earlier event has the same kind and the same positive sequence number. */
  predicate Repeats(sources: seq<MissionEvent>, i: nat)
    requires i < |sources|
  {
    sources[i].number > 0 && exists j :: 0 <= j < i && sources[j] == sources[i]
  }

  /** The wanted events among the first `n` that repeat no earlier one. */
  function Kept(b: Batch, n: nat): seq<Event>
    requires n <= |b.sources|
  {
    if n == 0 then []
    else if Wanted(b, b.sources[n - 1]) && !Repeats(b.sources, n - 1) then Kept(b, n - 1) + [DraftAt(b, n - 1)]
    else Kept(b, n - 1)
  }

  /** Same id, for two places of one batch: one repeats the other. */
  lemma SameIdExact(b: Batch, i: nat, j: nat)
    requires j < i < |b.sources|
    ensures IdAt(b, j) == IdAt(b, i) <==> b.sources[i].number > 0 && b.sources[j] == b.sources[i]
  {
    hide MissionEventId;
    IdExact(b.run, b.attempt, b.sources[j], j + 1, b.sources[i], i + 1);
  }

  /** The ids kept are the ids of all wanted events. */
  lemma {:induction false} KeptIds(b: Batch, n: nat, id: EventId)
    requires n <= |b.sources|
    ensures HasId(Kept(b, n), id) <==> exists j :: 0 <= j < n && Wanted(b, b.sources[j]) && IdAt(b, j) == id
  {
    hide IdAt;
    if n > 0 {
      KeptIds(b, n - 1, id);
      var last := b.sources[n - 1];
      if Wanted(b, last) && Repeats(b.sources, n - 1) {
        var j :| 0 <= j < n - 1 && b.sources[j] == last;
        SameIdExact(b, n - 1, j);
      } else if Wanted(b, last) {
        HasIdSnoc(Kept(b, n - 1), DraftAt(b, n - 1), id);
      }
    }
  }

  lemma HasIdSnoc(log: seq<Event>, e: Event, id: EventId)
    ensures HasId(log + [e], id) <==> HasId(log, id) || e.id == id
  {
    var log' := log + [e];
    assert log'[|log|] == e;
    assert forall i :: 0 <= i < |log| ==> log'[i] == log[i];
  }

  lemma HasIdConcat(log: seq<Event>, more: seq<Event>, id: EventId)
    ensures HasId(log + more, id) <==> HasId(log, id) || HasId(more, id)
  {
    var log' := log + more;
    assert forall i :: 0 <= i < |log| ==> log'[i] == log[i];
    assert forall i :: 0 <= i < |more| ==> log'[|log| + i] == more[i];
  }

  lemma ShapeIds(log: seq<Event>, id: EventId)
    ensures HasId(Shape(log), id) <==> HasId(log, id)
  {
    assert forall i :: 0 <= i < |log| ==> Shape(log)[i].id == log[i].id;
  }

  /** No mission event of this run and attempt is in the log yet. */
  ghost predicate FirstTime(s: State, b: Batch) {
    forall i :: 0 <= i < |b.sources| ==> !HasId(Log(s.events, b.run), IdAt(b, i))
  }

  /** A first ingest appends, in order, every wanted event that repeats no earlier one: an
      event is dropped exactly when it shares its positive number and its kind with one. */
  lemma {:induction false} FirstIngest(s: State, b: Batch, n: nat)
    requires FirstTime(s, b) && n <= |b.sources|
    ensures Shape(Log(Ingested(s, b, n).events, b.run)) == Shape(Log(s.events, b.run)) + Kept(b, n)
  {
    hide Wanted, IdAt, AppendEvent, HasId, Log, Shape, Repeats;
    if n == 0 {
      assert Shape(Log(s.events, b.run)) + [] == Shape(Log(s.events, b.run));
    } else {
      FirstIngest(s, b, n - 1);
      if Wanted(b, b.sources[n - 1]) {
        var before, e := Ingested(s, b, n - 1), DraftAt(b, n - 1);
        AppendEffect(before, e);
        AlreadyIngested(s, b, n - 1);
        var shape, kept := Shape(Log(s.events, b.run)), Kept(b, n - 1);
        assert shape + (kept + [e]) == shape + kept + [e];
      }
    }
  }

  /** Whether event `n` finds its id taken. */
  lemma AlreadyIngested(s: State, b: Batch, n: nat)
    requires FirstTime(s, b) && n < |b.sources| && Wanted(b, b.sources[n])
    requires Shape(Log(Ingested(s, b, n).events, b.run)) == Shape(Log(s.events, b.run)) + Kept(b, n)
    ensures HasId(Log(Ingested(s, b, n).events, b.run), IdAt(b, n)) <==> Repeats(b.sources, n)
  {
    hide IdAt, HasId, Log, Shape, Ingested, Kept;
    var log, log' := Log(s.events, b.run), Log(Ingested(s, b, n).events, b.run);
    ShapeIds(log, IdAt(b, n));
    ShapeIds(log', IdAt(b, n));
    HasIdConcat(Shape(log), Kept(b, n), IdAt(b, n));
    KeptIds(b, n, IdAt(b, n));
    forall j | 0 <= j < n ensures IdAt(b, j) == IdAt(b, n) <==> b.sources[n].number > 0 && b.sources[j] == b.sources[n] {
      SameIdExact(b, n, j);
    }
  }

  /** What is kept goes to the batch's run and thread, under a type that the mapping gives its
      kind and that is not excluded, and leaves its numbers to the log. */
  lemma {:induction false} KeptBelongs(b: Batch, n: nat, e: Event)
    requires n <= |b.sources| && e in Kept(b, n)
    ensures e.runId == b.run && e.threadId == b.thread && e.sequence == 0 && e.eventType !in b.excluded
    ensures exists i | 0 <= i < n ::
      && b.typeOf(b.sources[i].kind) == Some(e.eventType)
      && e.id == Ordinary(MissionEventId(b.run, b.attempt, b.sources[i], i + 1))
  {
    hide Repeats, MissionEventId;
    if n > 0 && e in Kept(b, n - 1) {
      KeptBelongs(b, n - 1, e);
    }
  }

  /** And everything is kept that the mapping knows, that is not excluded, and that does not repeat
      the kind and positive number of an earlier event. */
  lemma {:induction false} KeptIsComplete(b: Batch, n: nat, i: nat)
    requires i < n <= |b.sources|
    requires b.typeOf(b.sources[i].kind).Some? && b.typeOf(b.sources[i].kind).value !in b.excluded
    requires b.sources[i].number > 0 ==> forall j :: 0 <= j < i ==> b.sources[j].kind != b.sources[i].kind || b.sources[j].number != b.sources[i].number
    ensures exists e :: e in Kept(b, n) && e.id == Ordinary(MissionEventId(b.run, b.attempt, b.sources[i], i + 1))
  {
    hide MissionEventId;
    if i == n - 1 {
      assert DraftAt(b, i) in Kept(b, n);
    } else {
      KeptIsComplete(b, n - 1, i);
      var e :| e in Kept(b, n - 1) && e.id == Ordinary(MissionEventId(b.run, b.attempt, b.sources[i], i + 1));
      assert e in Kept(b, n);
    }
  }
}
