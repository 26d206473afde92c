/**
 The approval status machine: decisions on a snapshot, one compare-and-set on the
 status, and an audit log per approval.
 */
module Approvals {
  import opened Wrappers

  type Time = real

  datatype Status = Requested | Approved | Rejected | Expired | Cancelled | Executed | RolledBack

  datatype Approval = Approval(
    id: string,
    workspace: string,
    owner: string,
    requiredRole: string,
    status: Status,
    idempotencyKey: string,
    dryRun: bool,
    expiresAt: Option<Time>,
    createdAt: Time,
    updatedAt: Time)

  datatype Decision = Decision(from: Option<Status>, to: Status, actor: string)

  /** Role names are compared without regard to case: here all are lower-case. */
  datatype Principal = Principal(id: string, workspace: string, user: string, authenticated: bool, roles: set<string>)

  predicate IsInternal(p: Principal) {
    p.authenticated && "internal" in p.roles
  }

  predicate IsAdmin(p: Principal) {
    p.authenticated && ("admin" in p.roles || "internal" in p.roles)
  }

  datatype Refusal = Forbidden | InvalidTransition | ChangedConcurrently
  datatype Outcome = Done(approval: Approval) | Refused(why: Refusal)

  datatype Store = Store(items: map<string, Approval>, events: map<string, seq<Decision>>)

  /** The transition table. */
  predicate Allowed(from: Status, to: Status) {
    match from
    case Requested => to.Approved? || to.Rejected? || to.Expired? || to.Cancelled?
    case Approved => to.Executed? || to.Expired? || to.Cancelled?
    case Executed => to.RolledBack?
    case _ => false
  }

  /** The graph is acyclic: every transition climbs. */
  function Rank(s: Status): nat {
    match s
    case Requested => 0
    case Approved => 1
    case RolledBack => 3
    case _ => 2
  }

  lemma TransitionsClimb(from: Status, to: Status)
    ensures Allowed(from, to) ==> Rank(from) < Rank(to)
  {
  }

  // ---------------------------------------------------------- the decision

  predicate Due(a: Approval, now: Time) {
    a.expiresAt.Some? && a.expiresAt.value <= now
  }

  /** A decision that comes after the deadline becomes an expiry. */
  function Redirected(a: Approval, target: Status, now: Time): Status {
    if Due(a, now) && !target.Expired? && !target.Cancelled? then Expired else target
  }

  /** The checks before the write, in order. */
  function Check(a: Approval, target: Status, p: Principal, writeActions: bool, now: Time): Option<Refusal> {
    var final := Redirected(a, target, now);
    if p.workspace != a.workspace && !IsInternal(p) then Some(Forbidden)
    else if target.Cancelled? && p.user != a.owner && !IsAdmin(p) then Some(Forbidden)
    else if !Allowed(a.status, final) then Some(InvalidTransition)
    else if (final.Approved? || final.Rejected?) && a.requiredRole !in p.roles && !IsAdmin(p) then Some(Forbidden)
    else if final.Executed? && (!writeActions || a.dryRun) then Some(Forbidden)
    else None
  }

  /** The repository's compare-and-set: it looks at the stored status only. */
  function CompareAndSet(s: Store, id: string, expected: Status, a: Approval, d: Decision): (Store, bool) {
    if id in s.items && s.items[id].status == expected then
      (Store(s.items[id := a], s.events[id := (if id in s.events then s.events[id] else []) + [d]]), true)
    else (s, false)
  }

  /** transition_approval on a snapshot read at some earlier time. */
  function Decided(s: Store, snapshot: Approval, target: Status, p: Principal, writeActions: bool, now: Time): (Store, Outcome)
  {
    match Check(snapshot, target, p, writeActions, now)
    case Some(why) => (s, Refused(why))
    case None =>
      var final := Redirected(snapshot, target, now);
      var updated := snapshot.(status := final, updatedAt := now);
      var (s', done) := CompareAndSet(s, snapshot.id, snapshot.status, updated, Decision(Some(snapshot.status), final, p.id));
      if done then (s', Done(updated)) else (s', Refused(ChangedConcurrently))
  }

  ghost predicate SameRequest(a: Approval, workspace: string, owner: string, key: string) {
    a.workspace == workspace && a.owner == owner && a.idempotencyKey == key
  }

  /** The stored approval of this owner with this idempotency key, if any. */
  ghost predicate Registered(s: Store, a: Approval) {
    exists id :: id in s.items && SameRequest(s.items[id], a.workspace, a.owner, a.idempotencyKey)
  }

  ghost function Created(s: Store, a: Approval): Store {
    if Registered(s, a) then s
    else Store(s.items[a.id := a], s.events[a.id := [Decision(None, Requested, a.owner)]])
  }

  // ------------------------------------------------------------- invariant

  /** A path in the transition graph from the request to `status`. */
  predicate AuditPath(log: seq<Decision>, status: Status) {
    && log != []
    && log[0].from.None? && log[0].to.Requested?
    && (forall i :: 0 < i < |log| ==> log[i].from == Some(log[i - 1].to) && Allowed(log[i - 1].to, log[i].to))
    && log[|log| - 1].to == status
  }

  ghost predicate AuditInv(s: Store) {
    && s.items.Keys == s.events.Keys
    && (forall id :: id in s.items ==> s.items[id].id == id && AuditPath(s.events[id], s.items[id].status))
  }

  ghost predicate KeysInv(items: map<string, Approval>) {
    forall id, id' | id in items && id' in items ::
      SameRequest(items[id], items[id'].workspace, items[id'].owner, items[id'].idempotencyKey) ==> id == id'
  }

  ghost predicate Inv(s: Store) {
    AuditInv(s) && KeysInv(s.items)
  }

  /** An audit log climbs one rank at least per event, so it has at most four; an execution
      comes right after an approval. */
  lemma {:induction false} AuditLength(log: seq<Decision>, status: Status)
    requires AuditPath(log, status)
    ensures |log| <= Rank(status) + 1 <= 4
    ensures forall i :: 0 <= i < |log| && log[i].to.Executed? ==> i == 2 && log[1].to.Approved?
    ensures forall i :: 0 <= i < |log| ==> Rank(log[i].to) >= i
  {
    if |log| > 1 {
      var init := log[..|log| - 1];
      AuditLength(init, log[|log| - 2].to);
      TransitionsClimb(log[|log| - 2].to, log[|log| - 1].to);
      assert forall i :: 0 <= i < |init| ==> init[i] == log[i];
      if log[|log| - 1].to.Executed? {
        assert log[|log| - 2].to.Approved?;
      }
    }
  }

  lemma CreateKeeps(s: Store, a: Approval)
    requires Inv(s) && a.id !in s.items && a.status.Requested?
    ensures Inv(Created(s, a))
  {
    hide Inv;
    if !Registered(s, a) {
      NewKeyKeeps(s, a);
      NewAuditKeeps(s, a);
    }
    InvParts(s, Created(s, a));
  }

  lemma InvParts(s: Store, s': Store)
    requires Inv(s)
    ensures AuditInv(s') && KeysInv(s'.items) ==> Inv(s')
    ensures s' == s ==> Inv(s')
  {
  }

  lemma NewAuditKeeps(s: Store, a: Approval)
    requires Inv(s) && !Registered(s, a) && a.status.Requested?
    ensures AuditInv(Created(s, a))
  {
    hide KeysInv, Registered;
    assert AuditPath([Decision(None, Requested, a.owner)], Requested);
  }

  lemma NewKeyKeeps(s: Store, a: Approval)
    requires Inv(s) && !Registered(s, a)
    ensures KeysInv(Created(s, a).items)
  {
    hide AuditInv;
    var items' := s.items[a.id := a];
    forall id, id' | id in items' && id' in items' && SameRequest(items'[id], items'[id'].workspace, items'[id'].owner, items'[id'].idempotencyKey)
      ensures id == id'
    {
      assert id != a.id ==> id in s.items && !SameRequest(s.items[id], a.workspace, a.owner, a.idempotencyKey);
      assert id' != a.id ==> id' in s.items && !SameRequest(s.items[id'], a.workspace, a.owner, a.idempotencyKey);
    }
  }

  lemma AuditSnoc(log: seq<Decision>, status: Status, d: Decision)
    requires AuditPath(log, status) && d.from == Some(status) && Allowed(status, d.to)
    ensures AuditPath(log + [d], d.to)
  {
  }

  /** A write that passes the compare-and-set with an allowed status keeps the invariant. */
  lemma WriteKeeps(s: Store, id: string, a: Approval, d: Decision)
    requires Inv(s) && id in s.items && SameIdentity(a, s.items[id])
    requires d.from == Some(s.items[id].status) && d.to == a.status && Allowed(s.items[id].status, a.status)
    ensures Inv(CompareAndSet(s, id, s.items[id].status, a, d).0)
  {
    hide AuditPath, Allowed;
    AuditSnoc(s.events[id], s.items[id].status, d);
    var s' := CompareAndSet(s, id, s.items[id].status, a, d).0;
    assert AuditInv(s') by { hide KeysInv; }
    assert KeysInv(s'.items) by { RewriteKeepsKeys(s.items, id, a); }
  }

  lemma RewriteKeepsKeys(items: map<string, Approval>, id: string, a: Approval)
    requires KeysInv(items) && id in items && SameIdentity(a, items[id])
    ensures KeysInv(items[id := a])
  {
    var items' := items[id := a];
    forall i, j | i in items' && j in items' && SameRequest(items'[i], items'[j].workspace, items'[j].owner, items'[j].idempotencyKey)
      ensures i == j
    {
      assert SameRequest(items[i], items[j].workspace, items[j].owner, items[j].idempotencyKey);
    }
  }

  lemma TransitionKeeps(s: Store, snapshot: Approval, target: Status, p: Principal, writeActions: bool, now: Time)
    requires Inv(s)
    requires snapshot.id in s.items ==> SameIdentity(snapshot, s.items[snapshot.id])
    ensures Inv(Decided(s, snapshot, target, p, writeActions, now).0)
  {
    hide Inv, Allowed;
    var final := Redirected(snapshot, target, now);
    if Decided(s, snapshot, target, p, writeActions, now).1.Done? {
      WriteKeeps(s, snapshot.id, snapshot.(status := final, updatedAt := now), Decision(Some(snapshot.status), final, p.id));
    }
  }

  /** Two records of one approval differ in status and time of change only. */
  predicate SameIdentity(a: Approval, b: Approval) {
    a == b.(status := a.status, updatedAt := a.updatedAt)
  }

  // ------------------------------------------------------------ executions

  datatype Step =
    | Creating(approval: Approval)
    | Deciding(snapshot: Approval, readAt: nat, target: Status, principal: Principal, writeActions: bool, now: Time)

  ghost function Next(s: Store, step: Step): Store {
    match step
    case Creating(a) => Created(s, a)
    case Deciding(snapshot, _, target, p, writeActions, now) => Decided(s, snapshot, target, p, writeActions, now).0
  }

  /** Any interleaving: new requests, and decisions on snapshots read at any earlier state. */
  ghost predicate Execution(states: seq<Store>, steps: seq<Step>) {
    && |states| == |steps| + 1
    && states[0] == Store(map[], map[])
    && (forall i :: 0 <= i < |steps| ==> states[i + 1] == Next(states[i], steps[i]))
    && (forall i :: 0 <= i < |steps| && steps[i].Creating? ==>
          steps[i].approval.id !in states[i].items && steps[i].approval.status.Requested?)
    && (forall i :: 0 <= i < |steps| && steps[i].Deciding? ==>
          && steps[i].readAt <= i
          && steps[i].snapshot.id in states[steps[i].readAt].items
          && steps[i].snapshot == states[steps[i].readAt].items[steps[i].snapshot.id])
  }

  /** Records only move up the graph, and a record at the same rank is the same record. */
  ghost predicate Climbs(s: Store, s': Store) {
    forall id :: id in s.items ==>
      && id in s'.items
      && SameIdentity(s'.items[id], s.items[id])
      && Rank(s.items[id].status) <= Rank(s'.items[id].status)
      && (Rank(s.items[id].status) == Rank(s'.items[id].status) ==> s'.items[id] == s.items[id])
  }

  lemma StepClimbs(s: Store, step: Step)
    requires step.Creating? ==> step.approval.id !in s.items
    requires step.Deciding? && step.snapshot.id in s.items ==> SameIdentity(step.snapshot, s.items[step.snapshot.id])
    ensures Climbs(s, Next(s, step))
  {
    if step.Deciding? {
      TransitionsClimb(step.snapshot.status, Redirected(step.snapshot, step.target, step.now));
    }
  }

  lemma ClimbsTrans(a: Store, b: Store, c: Store)
    requires Climbs(a, b) && Climbs(b, c)
    ensures Climbs(a, c)
  {
  }

  lemma ClimbsSelf(s: Store)
    ensures Climbs(s, s)
  {
  }

  lemma ExecutionStep(states: seq<Store>, steps: seq<Step>, n: nat)
    requires Execution(states, steps) && n < |states|
    ensures states[0] == Store(map[], map[])
    ensures n > 0 ==>
      && n - 1 < |steps| && states[n] == Next(states[n - 1], steps[n - 1])
      && (steps[n - 1].Creating? ==> steps[n - 1].approval.id !in states[n - 1].items && steps[n - 1].approval.status.Requested?)
      && (steps[n - 1].Deciding? ==>
            && steps[n - 1].readAt <= n - 1
            && steps[n - 1].snapshot.id in states[steps[n - 1].readAt].items
            && steps[n - 1].snapshot == states[steps[n - 1].readAt].items[steps[n - 1].snapshot.id])
  {
    hide Next;
  }

  lemma {:induction false} History(states: seq<Store>, steps: seq<Step>, i: nat, j: nat)
    requires Execution(states, steps) && i <= j < |states|
    ensures Climbs(states[i], states[j]) && Inv(states[j])
    decreases j, j - i
  {
    hide Execution, Next, Inv, Climbs, SameIdentity;
    ExecutionStep(states, steps, j);
    ClimbsSelf(states[j]);
    if j == 0 {
      EmptyInv();
    } else {
      var step := steps[j - 1];
      History(states, steps, j - 1, j - 1);
      if step.Deciding? {
        History(states, steps, step.readAt, j - 1);
        SnapshotIdentity(states[step.readAt], states[j - 1], step.snapshot);
      }
      StepClimbs(states[j - 1], step);
      StepKeeps(states[j - 1], step);
      if i < j {
        History(states, steps, i, j - 1);
        ClimbsTrans(states[i], states[j - 1], states[j]);
      }
    }
  }

  lemma SnapshotIdentity(s: Store, s': Store, a: Approval)
    requires Climbs(s, s') && a.id in s.items && a == s.items[a.id]
    ensures a.id in s'.items && SameIdentity(a, s'.items[a.id])
  {
  }

  lemma EmptyInv()
    ensures Inv(Store(map[], map[]))
  {
  }

  lemma StepKeeps(s: Store, step: Step)
    requires Inv(s)
    requires step.Creating? ==> step.approval.id !in s.items && step.approval.status.Requested?
    requires step.Deciding? && step.snapshot.id in s.items ==> SameIdentity(step.snapshot, s.items[step.snapshot.id])
    ensures Inv(Next(s, step))
  {
    match step
    case Creating(a) => CreateKeeps(s, a);
    case Deciding(snapshot, _, target, p, writeActions, now) => TransitionKeeps(s, snapshot, target, p, writeActions, now);
  }

  /** Comparing the status alone is enough: whenever a decision is accepted, however old the
      snapshot it was made on, the record it replaces is that very snapshot. */
  lemma NoABA(states: seq<Store>, steps: seq<Step>, i: nat)
    requires Execution(states, steps) && i < |steps| && steps[i].Deciding?
    requires Decided(states[i], steps[i].snapshot, steps[i].target, steps[i].principal,
                        steps[i].writeActions, steps[i].now).1.Done?
    ensures steps[i].snapshot.id in states[i].items && states[i].items[steps[i].snapshot.id] == steps[i].snapshot
  {
    hide Next, Inv;
    History(states, steps, steps[i].readAt, i);
  }

  /** Every reachable audit log is a path of the graph that ends at the stored status, has at most
      four events, and has the approval right before any execution. */
  lemma AuditTrail(states: seq<Store>, steps: seq<Step>, i: nat, id: string)
    requires Execution(states, steps) && i < |states| && id in states[i].items
    ensures id in states[i].events && AuditPath(states[i].events[id], states[i].items[id].status)
    ensures |states[i].events[id]| <= 4
    ensures forall n :: 0 <= n < |states[i].events[id]| && states[i].events[id][n].to.Executed? ==>
      n == 2 && states[i].events[id][1].to.Approved?
  {
    hide Next, AuditPath;
    History(states, steps, i, i);
    AuditLength(states[i].events[id], states[i].items[id].status);
  }

  /** An owner never has two approvals under one idempotency key. */
  lemma KeysUnique(states: seq<Store>, steps: seq<Step>, i: nat, id: string, id': string)
    requires Execution(states, steps) && i < |states| && id in states[i].items && id' in states[i].items
    requires var a, b := states[i].items[id], states[i].items[id'];
      a.workspace == b.workspace && a.owner == b.owner && a.idempotencyKey == b.idempotencyKey
    ensures id == id'
  {
    hide Next, AuditPath;
    History(states, steps, i, i);
    assert SameRequest(states[i].items[id], states[i].items[id'].workspace, states[i].items[id'].owner, states[i].items[id'].idempotencyKey);
  }

  // ------------------------------------------------------- who may decide what

  /** The deadline has passed. */
  predicate Late(a: Approval, now: Time) {
    match a.expiresAt
    case None => false
    case Some(deadline) => now >= deadline
  }

  /** What may be stored in place of `a`, by whom, status by status. */
  predicate Entitled(a: Approval, stored: Status, p: Principal, writeActions: bool) {
    var internal := p.authenticated && "internal" in p.roles;
    var admin := internal || (p.authenticated && "admin" in p.roles);
    && (p.workspace == a.workspace || internal)
    && match stored
       case Approved => a.status == Requested && (a.requiredRole in p.roles || admin)
       case Rejected => a.status == Requested && (a.requiredRole in p.roles || admin)
       case Expired => a.status == Requested || a.status == Approved
       case Cancelled => (a.status == Requested || a.status == Approved) && (p.user == a.owner || admin)
       case Executed => a.status == Approved && writeActions && !a.dryRun
       case RolledBack => a.status == Executed
       case Requested => false
  }

  /** A decision is carried out exactly when the principal is entitled to it and the stored status
      is still the snapshot's. After the deadline everything but a cancel becomes an expiry. What
      is carried out is written to the record and to the end of its audit log, and nowhere else. */
  lemma DecisionExact(s: Store, snapshot: Approval, target: Status, p: Principal, writeActions: bool, now: Time)
    ensures var (s', outcome) := Decided(s, snapshot, target, p, writeActions, now);
      var id, stored := snapshot.id, if Late(snapshot, now) && target != Cancelled then Expired else target;
      && (outcome.Done? <==>
            Entitled(snapshot, stored, p, writeActions) && id in s.items && s.items[id].status == snapshot.status)
      && (outcome == Refused(ChangedConcurrently) <==>
            Entitled(snapshot, stored, p, writeActions) && !(id in s.items && s.items[id].status == snapshot.status))
      && (outcome.Refused? ==> s' == s)
      && (outcome.Done? ==>
            && outcome.approval == snapshot.(status := stored, updatedAt := now)
            && s'.items == s.items[id := outcome.approval]
            && s'.events == s.events[id := (if id in s.events then s.events[id] else []) + [Decision(Some(snapshot.status), stored, p.id)]])
  {
  }

  /** A request is registered once per owner and key, with one audit event by its owner. */
  lemma CreateExact(s: Store, a: Approval)
    ensures var s' := Created(s, a);
      var registered := exists id :: id in s.items && s.items[id].workspace == a.workspace && s.items[id].owner == a.owner
                                     && s.items[id].idempotencyKey == a.idempotencyKey;
      && (registered ==> s' == s)
      && (!registered ==>
            && s'.items == s.items[a.id := a] && s'.events.Keys == s.events.Keys + {a.id}
            && |s'.events[a.id]| == 1 && s'.events[a.id][0] == Decision(None, Requested, a.owner)
            && (forall id :: id in s.events && id != a.id ==> s'.events[id] == s.events[id]))
  {
    var registered := exists id :: id in s.items && s.items[id].workspace == a.workspace && s.items[id].owner == a.owner
                                   && s.items[id].idempotencyKey == a.idempotencyKey;
    assert registered <==> exists id :: id in s.items && SameRequest(s.items[id], a.workspace, a.owner, a.idempotencyKey);
  }

  /** Step `i` carried out a decision that stored `status` for approval `id`. */
  ghost predicate Stored(states: seq<Store>, steps: seq<Step>, i: nat, id: string, status: Status)
    requires |states| == |steps| + 1
  {
    && i < |steps| && steps[i].Deciding? && steps[i].snapshot.id == id
    && var outcome := Decided(states[i], steps[i].snapshot, steps[i].target, steps[i].principal, steps[i].writeActions, steps[i].now).1;
       outcome.Done? && outcome.approval.status == status
  }

  /** A status other than REQUESTED was stored by some decision. */
  lemma {:induction false} FindDecision(states: seq<Store>, steps: seq<Step>, j: nat, id: string) returns (i: nat)
    requires Execution(states, steps) && j < |states| && id in states[j].items && !states[j].items[id].status.Requested?
    ensures i < j && Stored(states, steps, i, id, states[j].items[id].status)
  {
    hide Decided, Inv;
    ExecutionStep(states, steps, j);
    i := j - 1;
    StepStores(states[i], steps[i], id);
    if id in states[i].items && states[i].items[id] == states[j].items[id] {
      i := FindDecision(states, steps, i, id);
    }
  }

  lemma StepStores(s: Store, step: Step, id: string)
    requires step.Creating? ==> step.approval.status.Requested?
    requires id in Next(s, step).items
    ensures (id in s.items && Next(s, step).items[id] == s.items[id])
      || Next(s, step).items[id].status.Requested?
      || (step.Deciding? && step.snapshot.id == id
          && var outcome := Decided(s, step.snapshot, step.target, step.principal, step.writeActions, step.now).1;
             outcome.Done? && outcome.approval == Next(s, step).items[id])
  {
    hide Decided;
    if step.Deciding? {
      DecisionExact(s, step.snapshot, step.target, step.principal, step.writeActions, step.now);
    }
  }

  /** Nothing is executed that an entitled principal did not approve before: behind every executed
      record there is a step that executed it, with write actions enabled, and an earlier step in
      which someone with the required role, or an administrator, approved it. */
  lemma ExecutedWasApproved(states: seq<Store>, steps: seq<Step>, j: nat, id: string) returns (approval: nat, execution: nat)
    requires Execution(states, steps) && j < |states| && id in states[j].items && states[j].items[id].status.Executed?
    ensures approval < execution < j
    ensures Stored(states, steps, execution, id, Executed) && steps[execution].writeActions
    ensures Stored(states, steps, approval, id, Approved)
    ensures var p, a := steps[approval].principal, steps[approval].snapshot;
      a.requiredRole in p.roles || (p.authenticated && ("admin" in p.roles || "internal" in p.roles))
  {
    hide Decided, Execution;
    execution := FindDecision(states, steps, j, id);
    var e := steps[execution];
    DecisionExact(states[execution], e.snapshot, e.target, e.principal, e.writeActions, e.now);
    approval := FindDecision(states, steps, execution, id);
    var a := steps[approval];
    DecisionExact(states[approval], a.snapshot, a.target, a.principal, a.writeActions, a.now);
  }

  // ------------------------------------------------------------- repository

  function SystemPrincipal(workspace: string): Principal {
    Principal("approval-expiry", workspace, "approval-expiry", true, {"internal"})
  }

  ghost predicate DueForExpiry(a: Approval, now: Time) {
    (a.status.Requested? || a.status.Approved?) && Due(a, now)
  }

  class Repository {
    var items: map<string, Approval>
    var events: map<string, seq<Decision>>

    ghost function View(): Store
      reads this
    {
      Store(items, events)
    }

    constructor ()
      ensures View() == Store(map[], map[]) && Inv(View())
    {
      items, events := map[], map[];
    }

    method Create(a: Approval) returns (stored: Approval)
      modifies this
      ensures View() == Created(old(View()), a)
      ensures old(Inv(View())) ==> stored.id in items && items[stored.id] == stored
      ensures SameRequest(stored, a.workspace, a.owner, a.idempotencyKey)
    {
      var rest := items.Keys;
      while rest != {}
        invariant rest <= items.Keys
        invariant forall id :: id in items && id !in rest ==> !SameRequest(items[id], a.workspace, a.owner, a.idempotencyKey)
        decreases |rest|
      {
        var id :| id in rest;
        rest := rest - {id};
        if items[id].workspace == a.workspace && items[id].owner == a.owner && items[id].idempotencyKey == a.idempotencyKey {
          return items[id];
        }
      }
      items := items[a.id := a];
      events := events[a.id := [Decision(None, Requested, a.owner)]];
      return a;
    }

    /** The repository's `transition`. */
    method Replace(id: string, expected: Status, a: Approval, d: Decision) returns (done: bool)
      modifies this
      ensures (View(), done) == CompareAndSet(old(View()), id, expected, a, d)
    {
      if id !in items || items[id].status != expected {
        return false;
      }
      items := items[id := a];
      events := events[id := (if id in events then events[id] else []) + [d]];
      return true;
    }

    /** transition_approval: the checks on the snapshot, then the compare-and-set. */
    method Decide(snapshot: Approval, target: Status, p: Principal, writeActions: bool, now: Time) returns (outcome: Outcome)
      modifies this
      ensures (View(), outcome) == Decided(old(View()), snapshot, target, p, writeActions, now)
      ensures outcome.Done? <==>
        && Entitled(snapshot, if Late(snapshot, now) && target != Cancelled then Expired else target, p, writeActions)
        && snapshot.id in old(items) && old(items)[snapshot.id].status == snapshot.status
    {
      DecisionExact(View(), snapshot, target, p, writeActions, now);
      var refusal := Check(snapshot, target, p, writeActions, now);
      if refusal.Some? {
        return Refused(refusal.value);
      }
      var final := Redirected(snapshot, target, now);
      var updated := snapshot.(status := final, updatedAt := now);
      var done := Replace(snapshot.id, snapshot.status, updated, Decision(Some(snapshot.status), final, p.id));
      return if done then Done(updated) else Refused(ChangedConcurrently);
    }

    /** list_due. */
    function DueIds(now: Time): set<string>
      reads this
    {
      DueSet(items, now)
    }

    /** The expiry sweep running alone: everything due expires, and nothing else changes. */
    method Sweep(now: Time) returns (expired: nat)
      requires Inv(View())
      modifies this
      ensures Inv(View())
      ensures expired == |old(DueIds(now))| && DueIds(now) == {}
      ensures items.Keys == old(items.Keys) && forall id :: id in items ==> Swept(old(View()), View(), id, now)
    {
      hide Inv, Decided, Sweeping, DueSet, Swept;
      ghost var s0 := View();
      expired := 0;
      var due := DueIds(now);
      var snapshot := items;
      SweepStart(s0, now);
      while due != {}
        invariant Inv(View()) && Sweeping(s0, View(), due, now)
        invariant expired + |due| == |old(DueIds(now))|
        decreases |due|
      {
        var id :| id in due;
        SweepStep(s0, View(), due, id, now);
        due := due - {id};
        var outcome := Decide(snapshot[id], Expired, SystemPrincipal(snapshot[id].workspace), false, now);
        if outcome.Done? {
          expired := expired + 1;
        }
      }
      SweepEnd(s0, View(), now);
    }
  }

  function DueSet(items: map<string, Approval>, now: Time): set<string> {
    set id | id in items && (items[id].status.Requested? || items[id].status.Approved?) && Due(items[id], now)
  }

  /** A sweep that began in `s0` and has yet to handle `due`. */
  ghost predicate Sweeping(s0: Store, s: Store, due: set<string>, now: Time) {
    && s.items.Keys == s0.items.Keys && due <= DueSet(s0.items, now)
    && (forall id :: id in due ==> s.items[id] == s0.items[id] && id in s.events && id in s0.events && s.events[id] == s0.events[id])
    && (forall id :: id in s.items && id !in due ==> Swept(s0, s, id, now))
  }

  lemma SweepStart(s: Store, now: Time)
    requires Inv(s)
    ensures Sweeping(s, s, DueSet(s.items, now), now)
  {
    KeysMatch(s);
  }

  lemma SweepStep(s0: Store, s: Store, due: set<string>, id: string, now: Time)
    requires Inv(s) && Sweeping(s0, s, due, now) && id in due
    ensures id in s0.items && var a := s0.items[id];
      var (s', outcome) := Decided(s, a, Expired, SystemPrincipal(a.workspace), false, now);
      outcome.Done? && Inv(s') && Sweeping(s0, s', due - {id}, now)
  {
    hide Inv, Decided;
    ExpiryAccepted(s, id, now);
    var a := s.items[id];
    var s' := Decided(s, a, Expired, SystemPrincipal(a.workspace), false, now).0;
    forall j | j in s'.items && j !in due - {id} ensures Swept(s0, s', j, now) {
      assert j != id ==> Swept(s0, s, j, now);
    }
  }

  lemma SweepEnd(s0: Store, s: Store, now: Time)
    requires Sweeping(s0, s, {}, now)
    ensures s.items.Keys == s0.items.Keys && forall id :: id in s.items ==> Swept(s0, s, id, now)
    ensures DueSet(s.items, now) == {}
  {
    forall id | id in s.items ensures id !in DueSet(s.items, now) {
      assert Swept(s0, s, id, now);
    }
  }

  lemma KeysMatch(s: Store)
    requires Inv(s)
    ensures s.items.Keys == s.events.Keys
  {
  }

  /** What the sweep does to one approval. */
  ghost predicate Swept(s: Store, s': Store, id: string, now: Time) {
    && id in s.items && id in s.events && id in s'.items && id in s'.events
    && if DueForExpiry(s.items[id], now)
       then && s'.items[id] == s.items[id].(status := Expired, updatedAt := now)
            && s'.events[id] == s.events[id] + [Decision(Some(s.items[id].status), Expired, "approval-expiry")]
       else s'.items[id] == s.items[id] && s'.events[id] == s.events[id]
  }

  /** The system principal may expire anything due. */
  lemma ExpiryAccepted(s: Store, id: string, now: Time)
    requires Inv(s) && id in s.items && DueForExpiry(s.items[id], now)
    ensures var a := s.items[id];
      var (s', outcome) := Decided(s, a, Expired, SystemPrincipal(a.workspace), false, now);
      && outcome.Done? && Inv(s')
      && id in s.events && s' == Store(s.items[id := a.(status := Expired, updatedAt := now)],
                    s.events[id := s.events[id] + [Decision(Some(a.status), Expired, "approval-expiry")]])
  {
    var a := s.items[id];
    WriteKeeps(s, id, a.(status := Expired, updatedAt := now), Decision(Some(a.status), Expired, SystemPrincipal(a.workspace).id));
  }
}
