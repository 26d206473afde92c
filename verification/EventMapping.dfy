/** Version 1 of the mapping from mission events to activity events: public types and ids. */
module EventMapping {
  import opened Wrappers
  import opened RunModel
  import opened SseWire

  /** A mission event as far as the mapping looks at it: its kind, trimmed and in lower case,
      and its sequence number, 0 when it has none that reads as a number. */
  datatype MissionEvent = MissionEvent(kind: string, number: int)

  // ------------------------------------------------------------------- types

  const RunStarted := Activity("run.started")

  /** Kinds of older missions, with the name they have today. */
  function CanonicalKind(kind: string): string {
    if kind == "query_normalized" then "mission_created"
    else if kind == "plan_created" then "task_plan_created"
    else if kind == "decide_execute_wave" then "task_wave_executed"
    else if kind == "budget_exhausted" then "mission_budget_exhausted"
    else if kind == "handoff_rejected" then "leadership_rejected"
    else if kind == "skeptic_revise_remediation" then "remediation_planned"
    else if kind == "remediation_activate" then "remediation_activated"
    else kind
  }

  /** The table of kinds, in two halves. */
  function ExactType(kind: string): Option<EventType> {
    if ProgressType(kind).Some? then ProgressType(kind) else FindingType(kind)
  }

  function ProgressType(kind: string): Option<EventType> {
    if kind == "mission_accepted" || kind == "mission_created" then Some(RunStarted)
    else if kind == "query_normalized" || kind == "decomposition_created" || kind == "decomposition_refined" then Some(Activity("intent.resolved"))
    else if kind == "task_plan_created" || kind == "plan_created" || kind == "remediation_planned" then Some(Activity("plan.created"))
    else if kind == "task_specialists_activated" || kind == "remediation_activated" then Some(Activity("agent.started"))
    else if kind == "leadership_transfer" then Some(Activity("agent.handoff"))
    else if kind == "mission_completed" || kind == "mission_partial" then Some(RunCompleted)
    else if kind == "mission_failed" then Some(RunFailed)
    else if kind == "mission_cancelled" then Some(RunCancelled)
    else None
  }

  function FindingType(kind: string): Option<EventType> {
    if kind == "leadership_rejected" || kind == "claim_challenged" || kind == "claim_rejected"
      || kind == "skeptic_revise" || kind == "skeptic_reject" || kind == "specialist_skipped_policy" || kind == "observe_skipped" || kind == "mission_budget_exhausted"
      then Some(Activity("warning.created"))
    else if kind == "claim_proposed" then Some(Activity("evidence.added"))
    else if kind == "claim_validated" || kind == "skeptic_gate" || kind == "skeptic_pass" then Some(Activity("decision.recorded"))
    else if kind == "remediation_round_done" || kind == "observed" || kind == "anomaly_done" || kind == "diagnostic_done"
      || kind == "prediction_done" || kind == "strategy_done"
      then Some(Activity("agent.completed"))
    else if kind == "specialist_error" then Some(Activity("tool.failed"))
    else None
  }

  predicate Contains(t: string, term: string) {
    exists i | 0 <= i <= |t| :: term <= t[i..]
  }

  predicate EndsWith(t: string, suffix: string) {
    |suffix| <= |t| && t[|t| - |suffix|..] == suffix
  }

  function FamilyType(kind: string): Option<EventType> {
    if "tool_" <= kind then
      if Contains(kind, "failed") || Contains(kind, "error") then Some(Activity("tool.failed"))
      else if Contains(kind, "completed") || Contains(kind, "done") || Contains(kind, "result") then Some(Activity("tool.completed"))
      else Some(Activity("tool.started"))
    else if "artifact_" <= kind then Some(Activity("artifact.created"))
    else if "specialist_" <= kind then
      if EndsWith(kind, "_done") || EndsWith(kind, "_completed") then Some(Activity("agent.completed")) else Some(Activity("agent.started"))
    else None
  }

  /** The table is asked for the kind itself before it is asked for its present-day name. */
  function EventTypeFor(kind: string): Option<EventType> {
    if ExactType(kind).Some? then ExactType(kind)
    else if ExactType(CanonicalKind(kind)).Some? then ExactType(CanonicalKind(kind))
    else FamilyType(kind)
  }

  /** Older kinds are meant to show as their present-day equivalents. All do but one, which
      the table lists under its old name as well, with another type. */
  lemma OldKindsShowAsNew(kind: string)
    ensures EventTypeFor(kind) == EventTypeFor(CanonicalKind(kind)) <==> kind != "query_normalized"
  {
    hide ExactType, FamilyType;
    if CanonicalKind(kind) != kind {
      ListedKinds();
      RenamedKinds();
      UnlistedKinds();
    }
  }

  /** The kinds that would end a run, were they not excluded. */
  lemma EndingKinds(kind: string)
    ensures EventTypeFor(kind) == Some(RunCompleted) <==> kind == "mission_completed" || kind == "mission_partial"
    ensures EventTypeFor(kind) == Some(RunFailed) <==> kind == "mission_failed"
    ensures EventTypeFor(kind) == Some(RunCancelled) <==> kind == "mission_cancelled"
  {
    hide ProgressType, FindingType, FamilyType;
    ProgressEnds(kind);
    FindingsNeverEnd(kind);
    FindingsNeverEnd(CanonicalKind(kind));
    FamiliesNeverEnd(kind);
    if CanonicalKind(kind) != kind {
      ProgressEnds(CanonicalKind(kind));
      AliasesNeverEnd(kind);
    }
  }

  lemma ProgressEnds(kind: string)
    ensures ProgressType(kind) == Some(RunCompleted) <==> kind == "mission_completed" || kind == "mission_partial"
    ensures ProgressType(kind) == Some(RunFailed) <==> kind == "mission_failed"
    ensures ProgressType(kind) == Some(RunCancelled) <==> kind == "mission_cancelled"
  {
  }

  lemma FindingsNeverEnd(kind: string)
    ensures FindingType(kind).Some? ==> FindingType(kind).value.Activity?
  {
  }

  lemma FamiliesNeverEnd(kind: string)
    ensures FamilyType(kind).Some? ==> FamilyType(kind).value.Activity?
  {
  }

  predicate Ends(kind: string) {
    kind == "mission_completed" || kind == "mission_partial" || kind == "mission_failed" || kind == "mission_cancelled"
  }

  lemma AliasesNeverEnd(kind: string)
    requires CanonicalKind(kind) != kind
    ensures !Ends(kind) && !Ends(CanonicalKind(kind))
  {
  }

  lemma ListedKinds()
    ensures ExactType("query_normalized") == Some(Activity("intent.resolved")) && ExactType("mission_created") == Some(RunStarted)
    ensures ExactType("plan_created") == ExactType("task_plan_created") == Some(Activity("plan.created"))
    ensures Activity("intent.resolved") != RunStarted
  {
    assert "run.started"[0] == 'r' && "intent.resolved"[0] == 'i';
  }

  lemma RenamedKinds()
    ensures ExactType("budget_exhausted").None? && ExactType("mission_budget_exhausted").Some?
    ensures ExactType("handoff_rejected").None? && ExactType("leadership_rejected").Some?
    ensures ExactType("skeptic_revise_remediation").None? && ExactType("remediation_planned").Some?
    ensures ExactType("remediation_activate").None? && ExactType("remediation_activated").Some?
  {
    assert ExactType("mission_budget_exhausted").Some? && ExactType("leadership_rejected").Some?;
    assert ExactType("remediation_planned").Some? && ExactType("remediation_activated").Some?;
    hide ExactType;
    NotListed("budget_exhausted", 16, 'b');
    NotListed("handoff_rejected", 16, 'h');
    NotListed("skeptic_revise_remediation", 26, 's');
    NotListed("remediation_activate", 20, 'r');
  }

  /** Told apart from every listed kind by length and first letter. */
  predicate Unlisted(n: nat, c: char) {
    || (n == 16 && (c == 'b' || c == 'h')) || (n == 26 && c == 's')
    || (n == 20 && c == 'r') || (n == 19 && c == 'd') || (n == 18 && c == 't')
  }

  lemma NotListed(kind: string, n: nat, c: char)
    requires |kind| == n > 0 && kind[0] == c && Unlisted(n, c)
    ensures ExactType(kind).None?
  {
    hide ProgressType, FindingType;
    NoProgress(kind);
    NoFinding(kind);
  }

  lemma NoProgress(kind: string)
    requires kind != "" && Unlisted(|kind|, kind[0])
    ensures ProgressType(kind).None?
  {
  }

  lemma NoFinding(kind: string)
    requires kind != "" && Unlisted(|kind|, kind[0])
    ensures FindingType(kind).None?
  {
  }

  lemma UnlistedKinds()
    ensures ExactType("decide_execute_wave").None? && ExactType("task_wave_executed").None?
    ensures FamilyType("decide_execute_wave").None? && FamilyType("task_wave_executed").None?
  {
    hide ExactType;
    NotListed("decide_execute_wave", 19, 'd');
    NotListed("task_wave_executed", 18, 't');
    assert "decide_execute_wave"[0] == 'd' && "task_wave_executed"[0] == 't' && "task_wave_executed"[1] == 'a';
    assert "tool_"[0] == 't' && "tool_"[1] == 'o' && "artifact_"[0] == 'a' && "specialist_"[0] == 's';
  }

  // --------------------------------------------------------------------- ids

  /** Events without a positive sequence number are told apart by their place in the list. */
  function Discriminator(e: MissionEvent, ordinal: nat): string {
    if e.number > 0 then "seq" + Decimal(e.number) else "p" + Decimal(ordinal)
  }

  function MissionEventId(run: string, attempt: string, e: MissionEvent, ordinal: nat): string {
    "event_mission_" + run + "_" + attempt + "_" + (Discriminator(e, ordinal) + ("_" + e.kind))
  }

  /** What precedes the first `_` and what follows it are determined by the text. */
  lemma FirstUnderscore(x: string, k: string, y: string, l: string)
    requires '_' !in x && '_' !in y && x + ("_" + k) == y + ("_" + l)
    ensures x == y && k == l
  {
    var t, u := x + ("_" + k), y + ("_" + l);
    assert t[|x|] == '_' && u[|y|] == '_';
    assert forall i :: 0 <= i < |x| ==> t[i] == x[i] && t[i] != '_';
    assert forall i :: 0 <= i < |y| ==> u[i] == y[i] && u[i] != '_';
    assert t[..|x|] == x && u[..|y|] == y;
    assert t[|x| + 1..] == k && u[|y| + 1..] == l;
  }

  lemma SamePrefix(p: string, a: string, b: string)
    requires p + a == p + b
    ensures a == b
  {
    assert (p + a)[|p|..] == a && (p + b)[|p|..] == b;
  }

  lemma SameNumber(p: string, m: nat, n: nat)
    requires p + Decimal(m) == p + Decimal(n)
    ensures m == n
  {
    SamePrefix(p, Decimal(m), Decimal(n));
    DecimalRoundTrip(m);
    DecimalRoundTrip(n);
  }

  /** Equal discriminators: the same positive sequence number, or the same place. */
  lemma DiscriminatorExact(a: MissionEvent, m: nat, b: MissionEvent, n: nat)
    ensures Discriminator(a, m) == Discriminator(b, n)
      <==> (if a.number > 0 then a.number == b.number else b.number <= 0 && m == n)
    ensures '_' !in Discriminator(a, m)
  {
    hide Decimal;
    DecimalOneLine(if a.number > 0 then a.number else m);
    if Discriminator(a, m) == Discriminator(b, n) {
      assert Discriminator(a, m)[0] == if a.number > 0 then 's' else 'p';
      assert Discriminator(b, n)[0] == if b.number > 0 then 's' else 'p';
      if a.number > 0 {
        SameNumber("seq", a.number, b.number);
      } else {
        SameNumber("p", m, n);
      }
    }
  }

  /** Within one run and attempt, ids coincide exactly for the same kind with the same positive
      sequence number, or the same kind at the same place without one. */
  lemma IdExact(run: string, attempt: string, a: MissionEvent, m: nat, b: MissionEvent, n: nat)
    ensures MissionEventId(run, attempt, a, m) == MissionEventId(run, attempt, b, n)
      <==> a.kind == b.kind && (if a.number > 0 then a.number == b.number else b.number <= 0 && m == n)
  {
    hide Discriminator;
    DiscriminatorExact(a, m, b, n);
    DiscriminatorExact(b, n, a, m);
    if MissionEventId(run, attempt, a, m) == MissionEventId(run, attempt, b, n) {
      SamePrefix("event_mission_" + run + "_" + attempt + "_", Discriminator(a, m) + ("_" + a.kind), Discriminator(b, n) + ("_" + b.kind));
      FirstUnderscore(Discriminator(a, m), a.kind, Discriminator(b, n), b.kind);
    }
  }
}
