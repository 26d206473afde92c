/**
 Exactly-once, in-order delivery over a connection that may break anywhere:
 the log, the server's generator, the wire and the client as one transition system.
 */
module DeliverySystem {
  import opened Wrappers
  import opened SseWire
  import opened EventDelivery

  /** One connection: the client as it was when it connected, all the server has sent since, how
      many characters of that arrived, and the generator's cursor and listed batch. */
  datatype Link = Link(base: Client, sent: seq<Item>, received: nat, cursor: nat, pending: seq<LogEvent>)
  datatype System = System(log: seq<LogEvent>, client: Client, link: Option<Link>)

  datatype Step =
    | Append(event: LogEvent)      // the run's log grows
    | Connect                      // the client asks for events after its cursor
    | Poll                         // the generator lists the log after its cursor
    | Yield                        // the generator handles the next listed event
    | Beat                         // the generator sends a heartbeat
    | Read(count: nat)             // some more characters reach the client
    | Drop                         // the connection ends, whatever is still on its way

  function LastSequence(log: seq<LogEvent>): nat {
    if log == [] then 0 else log[|log| - 1].sequence
  }

  predicate Enabled(s: System, step: Step) {
    match step
    case Append(e) => WireSafe(e) && (s.log == [] || e.sequence > LastSequence(s.log))
    case Connect => s.link.None?
    case Poll => s.link.Some? && s.link.value.pending == []
    case Yield => s.link.Some? && s.link.value.pending != []
    case Beat => s.link.Some?
    case Read(n) => s.link.Some? && s.link.value.received + n <= |Text(s.link.value.sent)|
    case Drop => s.link.Some?
  }

  function Next(s: System, step: Step): System
    requires Enabled(s, step)
  {
    match step
    case Append(e) => s.(log := s.log + [e])
    case Connect =>
      var c := s.client.(buffer := "");
      System(s.log, c, Some(Link(c, [], 0, EventCursor(Decimal(c.cursor), c.cursor), [])))
    case Poll =>
      var l := s.link.value;
      s.(link := Some(l.(pending := ListEvents(s.log, l.cursor))))
    case Yield =>
      var l := s.link.value;
      var e := l.pending[0];
      s.(link := Some(l.(cursor := Max(l.cursor, e.sequence), pending := l.pending[1..],
                         sent := if e.visible then l.sent + [Sent(e)] else l.sent)))
    case Beat =>
      var l := s.link.value;
      s.(link := Some(l.(sent := l.sent + [Heartbeat])))
    case Read(n) =>
      var l := s.link.value;
      var chunk := Text(l.sent)[l.received..l.received + n];
      s.(client := Receive(s.client, chunk), link := Some(l.(received := l.received + n)))
    case Drop => s.(link := None)
  }

  // ------------------------------------------------------------- invariant

  /** The log entries with a sequence above `a` and at most `b`. */
  function Window(log: seq<LogEvent>, a: nat, b: nat): seq<LogEvent> {
    if Pos(log, a) <= Pos(log, b) then log[Pos(log, a)..Pos(log, b)] else []
  }

  /** The client has been handed the visible entries after `from` up to its cursor, in order, once each. */
  ghost predicate Exactly(log: seq<LogEvent>, from: nat, c: Client) {
    from <= c.cursor && c.delivered == Visible(Window(log, from, c.cursor))
  }

  /** A cursor is where the client started or a place in the log. */
  predicate Known(log: seq<LogEvent>, from: nat, cursor: nat) {
    from <= cursor && (cursor == from || (log != [] && cursor <= LastSequence(log)))
  }

  ghost predicate LogOk(log: seq<LogEvent>) {
    Sorted(log) && forall i :: 0 <= i < |log| ==> WireSafe(log[i])
  }

  ghost predicate PendingOk(log: seq<LogEvent>, cursor: nat, pending: seq<LogEvent>) {
    Pos(log, cursor) + |pending| <= |log| && pending == log[Pos(log, cursor)..Pos(log, cursor) + |pending|]
  }

  /** The client is its state at connection time plus the frames complete so far. */
  ghost predicate ClientOk(client: Client, l: Link) {
    && l.received <= |Text(l.sent)|
    && (var (frames, rest) := Split(Text(l.sent)[..l.received]);
        client == HandleAll(l.base, frames).(buffer := rest))
  }

  ghost predicate LinkOk(log: seq<LogEvent>, from: nat, l: Link) {
    && Exactly(log, from, l.base) && Known(log, from, l.base.cursor)
    && l.base.cursor <= l.cursor && Known(log, from, l.cursor)
    && AllSafe(l.sent) && Messages(l.sent) == Visible(Window(log, l.base.cursor, l.cursor))
    && PendingOk(log, l.cursor, l.pending)
  }

  ghost predicate Inv(s: System, from: nat) {
    && LogOk(s.log)
    && match s.link
       case None => Exactly(s.log, from, s.client) && Known(s.log, from, s.client.cursor)
       case Some(l) => LinkOk(s.log, from, l) && ClientOk(s.client, l)
  }

  // -------------------------------------------------------- log windows

  lemma PosMonotone(log: seq<LogEvent>, a: nat, b: nat)
    requires Sorted(log) && a <= b
    ensures Pos(log, a) <= Pos(log, b)
  {
    PosSplits(log, a);
    PosSplits(log, b);
    assert Pos(log, b) < |log| ==> log[Pos(log, b)].sequence > b;
  }

  lemma PosAppend(log: seq<LogEvent>, e: LogEvent, c: nat)
    ensures Pos(log + [e], c) == if e.sequence <= c then |log| + 1 else Pos(log, c)
  {
    assert (log + [e])[..|log|] == log;
  }

  /** New entries are outside every window between known cursors. */
  lemma WindowAppend(log: seq<LogEvent>, e: LogEvent, from: nat, a: nat, b: nat)
    requires LogOk(log) && (log == [] || e.sequence > LastSequence(log))
    requires Known(log, from, a) && Known(log, from, b) && a <= b
    ensures Window(log + [e], a, b) == Window(log, a, b)
    ensures Known(log + [e], from, a)
  {
    PosAppend(log, e, a);
    PosAppend(log, e, b);
    PosMonotone(log, a, b);
  }

  lemma PendingAppend(log: seq<LogEvent>, e: LogEvent, from: nat, cursor: nat, pending: seq<LogEvent>)
    requires LogOk(log) && (log == [] || e.sequence > LastSequence(log))
    requires Known(log, from, cursor) && PendingOk(log, cursor, pending)
    ensures PendingOk(log + [e], cursor, pending)
  {
    PosAppend(log, e, cursor);
    PosSplits(log, cursor);
    if e.sequence <= cursor {
      assert forall i :: 0 <= i < |log| ==> log[i].sequence <= cursor;
      PosUnique(log, cursor, |log|);
    }
  }

  /** Moving the far end of a window over the next log entry. */
  lemma WindowNext(log: seq<LogEvent>, a: nat, b: nat)
    requires Sorted(log) && a <= b && Pos(log, b) < |log|
    ensures var e := log[Pos(log, b)];
      && e.sequence > b && Pos(log, e.sequence) == Pos(log, b) + 1
      && Window(log, a, e.sequence) == Window(log, a, b) + [e]
  {
    hide Pos;
    PosSplits(log, b);
    PosMonotone(log, a, b);
    var p := Pos(log, b);
    var e := log[p];
    PosUnique(log, e.sequence, p + 1);
    PosMonotone(log, a, e.sequence);
    assert log[Pos(log, a)..p + 1] == log[Pos(log, a)..p] + [e];
  }

  /** Windows that meet add up. */
  lemma WindowJoin(log: seq<LogEvent>, a: nat, b: nat, c: nat)
    requires Sorted(log) && a <= b <= c
    ensures Window(log, a, c) == Window(log, a, b) + Window(log, b, c)
  {
    PosMonotone(log, a, b);
    PosMonotone(log, b, c);
  }

  // -------------------------------------------- what has reached the client

  /** A cut of the sent text completes the frames of the first `m` items. */
  lemma CompleteFrames(sent: seq<Item>, received: nat) returns (m: nat)
    requires AllSafe(sent) && received <= |Text(sent)|
    ensures m <= |sent| && Split(Text(sent)[..received]).0 == Bodies(sent[..m])
  {
    hide Split, SafeItem, ItemBody;
    var a, b := Text(sent)[..received], Text(sent)[received..];
    assert Text(sent) == a + b;
    SplitText(sent);
    ChunkIndependent(a, b);
    m := |Split(a).0|;
    assert Split(a).0 == Bodies(sent)[..m];
    assert Bodies(sent)[..m] == Bodies(sent[..m]);
  }

  lemma {:induction false} MessagesConcat(a: seq<Item>, b: seq<Item>)
    ensures Messages(a + b) == Messages(a) + Messages(b)
  {
    if b == [] {
      assert a + b == a;
    } else {
      MessagesConcat(a, b[..|b| - 1]);
      assert (a + b)[..|a + b| - 1] == a + b[..|b| - 1];
    }
  }

  predicate Increasing(c: nat, messages: seq<Message>) {
    && (forall i :: 0 <= i < |messages| ==> c < messages[i].sequence)
    && (forall i, j :: 0 <= i < j < |messages| ==> messages[i].sequence < messages[j].sequence)
  }

  /** The cursor ends at the last message. */
  lemma {:induction false} CursorAtLast(c: nat, items: seq<Item>)
    requires Increasing(c, Messages(items))
    ensures LastCursor(c, items) == if Messages(items) == [] then c else Messages(items)[|Messages(items)| - 1].sequence
  {
    if items != [] {
      var init := items[..|items| - 1];
      assert Messages(init) <= Messages(items);
      CursorAtLast(c, init);
    }
  }

  lemma {:induction false} VisibleIncreasing(c: nat, s: seq<LogEvent>)
    requires Sorted(s) && forall i :: 0 <= i < |s| ==> c < s[i].sequence
    ensures Increasing(c, Visible(s))
    ensures forall n :: 0 <= n < |Visible(s)| ==> Visible(s)[n].sequence <= s[|s| - 1].sequence
  {
    if s != [] {
      VisibleIncreasing(c, s[..|s| - 1]);
    }
  }

  lemma WindowSorted(log: seq<LogEvent>, a: nat, b: nat)
    requires Sorted(log) && a <= b
    ensures Sorted(Window(log, a, b)) && forall i :: 0 <= i < |Window(log, a, b)| ==> a < Window(log, a, b)[i].sequence
  {
    PosSplits(log, a);
    PosMonotone(log, a, b);
  }

  /** The first messages of a window are the window up to their last one. */
  lemma WindowPrefix(log: seq<LogEvent>, a: nat, b: nat, k: nat)
    requires Sorted(log) && a <= b && 1 <= k <= |Visible(Window(log, a, b))|
    ensures var messages := Visible(Window(log, a, b));
      var c := messages[k - 1].sequence;
      && a < c <= b && log != [] && c <= LastSequence(log)
      && messages[..k] == Visible(Window(log, a, c))
  {
    hide Pos;
    PosSplits(log, a);
    PosSplits(log, b);
    PosMonotone(log, a, b);
    var w := Window(log, a, b);
    var q := VisiblePrefix(w, k);
    var n := Pos(log, a) + q;
    assert w[q] == log[n];
    PosUnique(log, log[n].sequence, n + 1);
    PosMonotone(log, a, log[n].sequence);
    assert w[..q + 1] == log[Pos(log, a)..n + 1];
  }

  /** At every moment of a connection the client has exactly the entries up to its cursor. */
  lemma LinkDelivers(log: seq<LogEvent>, from: nat, client: Client, l: Link)
    requires LogOk(log) && LinkOk(log, from, l) && ClientOk(client, l)
    ensures Exactly(log, from, client) && Known(log, from, client.cursor) && l.base.cursor <= client.cursor
  {
    hide Pos, Split, Window, Visible, SafeItem, ItemBody, HandleAll, Text;
    var a := l.base.cursor;
    var m := CompleteFrames(l.sent, l.received);
    var done := l.sent[..m];
    HandleItems(l.base, done);
    assert client == l.base.(cursor := LastCursor(a, done), delivered := l.base.delivered + Messages(done), buffer := client.buffer);
    MessagesConcat(done, l.sent[m..]);
    assert l.sent == done + l.sent[m..];
    var messages := Visible(Window(log, a, l.cursor));
    var k := |Messages(done)|;
    assert Messages(done) == messages[..k];
    WindowSorted(log, a, l.cursor);
    VisibleIncreasing(a, Window(log, a, l.cursor));
    CursorAtLast(a, done);
    if k == 0 {
      assert l.base.delivered + Messages(done) == l.base.delivered;
    } else {
      WindowPrefix(log, a, l.cursor, k);
      WindowJoin(log, from, a, client.cursor);
      VisibleConcat(Window(log, from, a), Window(log, a, client.cursor));
    }
  }

  // ------------------------------------------------------------ the steps

  lemma AppendKeeps(s: System, from: nat, e: LogEvent)
    requires Inv(s, from) && Enabled(s, Append(e))
    ensures Inv(Next(s, Append(e)), from)
  {
    hide Pos, Window, Visible, SafeItem, HandleAll, Split, Text;
    var log' := s.log + [e];
    assert LogOk(log');
    match s.link
    case None =>
      WindowAppend(s.log, e, from, from, s.client.cursor);
      WindowAppend(s.log, e, from, s.client.cursor, s.client.cursor);
    case Some(l) =>
      WindowAppend(s.log, e, from, from, l.base.cursor);
      WindowAppend(s.log, e, from, l.base.cursor, l.cursor);
      WindowAppend(s.log, e, from, l.cursor, l.cursor);
      PendingAppend(s.log, e, from, l.cursor, l.pending);
  }

  lemma EmptyWindow(log: seq<LogEvent>, c: nat)
    ensures Window(log, c, c) == [] && Visible(Window(log, c, c)) == []
  {
  }

  lemma ConnectKeeps(s: System, from: nat)
    requires Inv(s, from) && Enabled(s, Connect)
    ensures Inv(Next(s, Connect), from)
  {
    hide Pos, Window, Visible, SafeItem, EventCursor, Decimal;
    ResumesAtCursor(s.client.cursor);
    EmptyWindow(s.log, s.client.cursor);
    SplitEmpty();
    var l := Next(s, Connect).link.value;
    assert Text(l.sent)[..0] == "";
  }

  lemma PollKeeps(s: System, from: nat)
    requires Inv(s, from) && Enabled(s, Poll)
    ensures Inv(Next(s, Poll), from)
  {
    hide Pos, Window, Visible, SafeItem, HandleAll, Split, Text, ListEvents;
    ListEventsIsSuffix(s.log, s.link.value.cursor);
  }

  /** More sent text leaves what has arrived alone. */
  lemma SendKeepsClient(client: Client, l: Link, item: Item)
    requires ClientOk(client, l)
    ensures ClientOk(client, l.(sent := l.sent + [item]))
  {
    hide HandleAll, Split, ItemText;
    TextSnoc(l.sent, item);
    assert (Text(l.sent) + ItemText(item))[..l.received] == Text(l.sent)[..l.received];
  }

  lemma MessagesSnoc(items: seq<Item>, item: Item)
    ensures Messages(items + [item]) == Messages(items) + if item.Sent? then [MessageOf(item.event)] else []
  {
    assert (items + [item])[..|items|] == items;
  }

  lemma YieldKeeps(s: System, from: nat)
    requires Inv(s, from) && Enabled(s, Yield)
    ensures Inv(Next(s, Yield), from)
  {
    hide Pos, Window, Visible, HandleAll, Split, Text, ClientOk, WireSafe, Messages;
    var l := s.link.value;
    var e := l.pending[0];
    var p := Pos(s.log, l.cursor);
    assert e == s.log[p];
    WindowNext(s.log, l.base.cursor, l.cursor);
    VisibleSnoc(Window(s.log, l.base.cursor, l.cursor), e);
    assert l.pending[1..] == s.log[p + 1..p + |l.pending|];
    assert Known(s.log, from, e.sequence);
    if e.visible {
      MessagesSnoc(l.sent, Sent(e));
      SendKeepsClient(s.client, l, Sent(e));
      ClientIgnores(s.client, l.(sent := l.sent + [Sent(e)]), e.sequence, l.pending[1..]);
    } else {
      ClientIgnores(s.client, l, e.sequence, l.pending[1..]);
    }
  }

  lemma VisibleSnoc(s: seq<LogEvent>, e: LogEvent)
    ensures Visible(s + [e]) == Visible(s) + if e.visible then [MessageOf(e)] else []
  {
    assert (s + [e])[..|s|] == s;
  }

  lemma ClientIgnores(client: Client, l: Link, cursor: nat, pending: seq<LogEvent>)
    requires ClientOk(client, l)
    ensures ClientOk(client, l.(cursor := cursor, pending := pending))
  {
  }

  lemma BeatKeeps(s: System, from: nat)
    requires Inv(s, from) && Enabled(s, Beat)
    ensures Inv(Next(s, Beat), from)
  {
    hide Pos, Window, Visible, HandleAll, Split, Text, ClientOk, WireSafe, Messages;
    var l := s.link.value;
    SendKeepsClient(s.client, l, Heartbeat);
    MessagesSnoc(l.sent, Heartbeat);
  }

  /** Reading any number of characters keeps the client at what the text so far completes. */
  lemma ReadKeeps(s: System, from: nat, n: nat)
    requires Inv(s, from) && Enabled(s, Read(n))
    ensures Inv(Next(s, Read(n)), from)
  {
    hide Pos, Window, Visible, Text, LinkOk, Split;
    var l := s.link.value;
    var text := Text(l.sent);
    var a, b := text[..l.received], text[l.received..l.received + n];
    assert text[..l.received + n] == a + b;
    ChunkIndependent(a, b);
    var (frames, rest) := Split(a);
    var (more, last) := Split(rest + b);
    HandleConcat(l.base, frames, more);
    BufferUntouched(HandleAll(l.base, frames), more, rest);
    LinkUnread(s.log, from, l, l.received + n);
  }

  lemma LinkUnread(log: seq<LogEvent>, from: nat, l: Link, received: nat)
    requires LinkOk(log, from, l)
    ensures LinkOk(log, from, l.(received := received))
  {
  }

  lemma NextKeeps(s: System, from: nat, step: Step)
    requires Inv(s, from) && Enabled(s, step)
    ensures Inv(Next(s, step), from)
  {
    match step
    case Append(e) => AppendKeeps(s, from, e);
    case Connect => ConnectKeeps(s, from);
    case Poll => PollKeeps(s, from);
    case Yield => YieldKeeps(s, from);
    case Beat => BeatKeeps(s, from);
    case Read(n) => ReadKeeps(s, from, n);
    case Drop => LinkDelivers(s.log, from, s.client, s.link.value);
  }

  // ----------------------------------------------------------- whole runs

  function Initial(log: seq<LogEvent>, from: nat): System {
    System(log, Client(from, "", []), None)
  }

  ghost predicate Run(states: seq<System>, steps: seq<Step>, from: nat) {
    && |states| == |steps| + 1
    && LogOk(states[0].log) && states[0] == Initial(states[0].log, from)
    && (forall i :: 0 <= i < |steps| ==> Enabled(states[i], steps[i]) && states[i + 1] == Next(states[i], steps[i]))
  }

  lemma {:induction false} AlwaysInv(states: seq<System>, steps: seq<Step>, from: nat, i: nat)
    requires Run(states, steps, from) && i < |states|
    ensures Inv(states[i], from)
  {
    hide Next, Enabled, Inv;
    if i == 0 {
      InitialInv(states[0].log, from);
    } else {
      AlwaysInv(states, steps, from, i - 1);
      NextKeeps(states[i - 1], from, steps[i - 1]);
    }
  }

  lemma InitialInv(log: seq<LogEvent>, from: nat)
    requires LogOk(log)
    ensures Inv(Initial(log, from), from)
  {
    EmptyWindow(log, from);
  }

  /** Whatever breaks, and wherever: at every moment the client has been handed exactly the visible
      log entries after its starting point up to its cursor, in log order, once each. */
  lemma DeliveredExactlyOnce(states: seq<System>, steps: seq<Step>, from: nat, i: nat)
    requires Run(states, steps, from) && i < |states|
    ensures Exactly(states[i].log, from, states[i].client)
  {
    hide Next, Enabled;
    AlwaysInv(states, steps, from, i);
    if states[i].link.Some? {
      LinkDelivers(states[i].log, from, states[i].client, states[i].link.value);
    }
  }

  /** Once the generator has worked through the log and the client has read all it sent, nothing is missing. */
  lemma NothingMissing(states: seq<System>, steps: seq<Step>, from: nat, i: nat)
    requires Run(states, steps, from) && i < |states| && states[i].link.Some?
    requires var l := states[i].link.value;
      l.received == |Text(l.sent)| && (states[i].log == [] || l.cursor >= LastSequence(states[i].log))
    ensures states[i].client.delivered == Visible(states[i].log[Pos(states[i].log, from)..])
  {
    hide Next, Enabled, Visible, Text;
    AlwaysInv(states, steps, from, i);
    AllRead(states[i].log, from, states[i].client, states[i].link.value);
  }

  lemma AllRead(log: seq<LogEvent>, from: nat, client: Client, l: Link)
    requires LogOk(log) && LinkOk(log, from, l) && ClientOk(client, l)
    requires l.received == |Text(l.sent)| && (log == [] || l.cursor >= LastSequence(log))
    ensures client.delivered == Visible(log[Pos(log, from)..])
  {
    hide Pos, Split, Visible, SafeItem, ItemBody, HandleAll, Text, Messages;
    assert Text(l.sent)[..l.received] == Text(l.sent);
    SplitText(l.sent);
    HandleItems(l.base, l.sent);
    WindowJoin(log, from, l.base.cursor, l.cursor);
    VisibleConcat(Window(log, from, l.base.cursor), Window(log, l.base.cursor, l.cursor));
    PosMonotone(log, from, l.cursor);
    PosSplits(log, l.cursor);
    PosUnique(log, l.cursor, |log|);
    assert log[Pos(log, from)..|log|] == log[Pos(log, from)..];
  }
}
