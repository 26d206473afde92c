/**
 Delivery of a run's log to one client: the server's stream generator, a lossy
 connection that may break at any character, and the client's resume loop.
 */
module EventDelivery {
  import opened Wrappers
  import opened SseWire

  /** A log entry as the stream sees it: `data` is its JSON text, `visible` whether the
      principal may see it. */
  datatype LogEvent = LogEvent(sequence: nat, name: string, data: string, visible: bool)
  datatype Message = Message(sequence: nat, name: string, data: string)

  predicate WireSafe(e: LogEvent) {
    OneLine(e.name) && OneLine(e.data) && e.data != ""
  }

  predicate Sorted(log: seq<LogEvent>) {
    forall i, j :: 0 <= i < j < |log| ==> log[i].sequence < log[j].sequence
  }

  function MessageOf(e: LogEvent): Message {
    Message(e.sequence, e.name, e.data)
  }

  function Max(a: nat, b: nat): nat {
    if a < b then b else a
  }

  // ---------------------------------------------------------- reading the log

  /** How many entries of a sorted log have a sequence of at most `c`. */
  function Pos(log: seq<LogEvent>, c: nat): (n: nat)
    ensures n <= |log|
  {
    if log == [] then 0
    else if log[|log| - 1].sequence <= c then |log|
    else Pos(log[..|log| - 1], c)
  }

  lemma {:induction false} PosSplits(log: seq<LogEvent>, c: nat)
    requires Sorted(log)
    ensures forall i :: 0 <= i < |log| ==> (log[i].sequence <= c <==> i < Pos(log, c))
  {
    if log != [] && log[|log| - 1].sequence > c {
      var init := log[..|log| - 1];
      PosSplits(init, c);
      assert forall i :: 0 <= i < |init| ==> log[i] == init[i];
    }
  }

  lemma PosUnique(log: seq<LogEvent>, c: nat, n: nat)
    requires Sorted(log) && n <= |log|
    requires forall i :: 0 <= i < |log| ==> (log[i].sequence <= c <==> i < n)
    ensures Pos(log, c) == n
  {
    PosSplits(log, c);
    var p := Pos(log, c);
    assert p < |log| ==> (log[p].sequence <= c <==> p < n);
    assert n < |log| ==> (log[n].sequence <= c <==> n < p);
  }

  /** list_events(after_sequence = c). */
  function ListEvents(log: seq<LogEvent>, c: nat): seq<LogEvent> {
    if log == [] then []
    else
      var last := log[|log| - 1];
      ListEvents(log[..|log| - 1], c) + if last.sequence > c then [last] else []
  }

  lemma {:induction false} ListEventsIsSuffix(log: seq<LogEvent>, c: nat)
    requires Sorted(log)
    ensures ListEvents(log, c) == log[Pos(log, c)..]
  {
    if log != [] {
      var init, last := log[..|log| - 1], log[|log| - 1];
      ListEventsIsSuffix(init, c);
      PosSplits(log, c);
      if last.sequence > c {
        assert log[Pos(log, c)..] == init[Pos(init, c)..] + [last];
      } else {
        PosSplits(init, c);
        assert forall i :: 0 <= i < |init| ==> init[i].sequence <= c by { assert forall i :: 0 <= i < |init| ==> log[i] == init[i]; }
        PosUnique(init, c, |init|);
      }
    }
  }

  /** The messages of the visible entries. */
  function Visible(s: seq<LogEvent>): seq<Message> {
    if s == [] then []
    else
      var last := s[|s| - 1];
      Visible(s[..|s| - 1]) + if last.visible then [MessageOf(last)] else []
  }

  lemma {:induction false} VisibleConcat(a: seq<LogEvent>, b: seq<LogEvent>)
    ensures Visible(a + b) == Visible(a) + Visible(b)
  {
    if b == [] {
      assert a + b == a;
    } else {
      VisibleConcat(a, b[..|b| - 1]);
      assert (a + b)[..|a + b| - 1] == a + b[..|b| - 1];
    }
  }

  /** Any non-empty prefix of the visible messages ends at some visible entry. */
  lemma {:induction false} VisiblePrefix(s: seq<LogEvent>, m: nat) returns (q: nat)
    requires 1 <= m <= |Visible(s)|
    ensures q < |s| && s[q].visible && Visible(s[..q + 1]) == Visible(s)[..m] && Visible(s)[m - 1] == MessageOf(s[q])
  {
    var init, last := s[..|s| - 1], s[|s| - 1];
    if m <= |Visible(init)| {
      q := VisiblePrefix(init, m);
      assert s[..q + 1] == init[..q + 1];
    } else {
      q := |s| - 1;
      assert s[..q + 1] == s;
    }
  }

  // -------------------------------------------------------------- the client

  datatype Client = Client(cursor: nat, buffer: string, delivered: seq<Message>)

  /** One complete frame: delivered when it carries data, and the cursor follows its id. */
  function Handle(c: Client, raw: string): Client {
    match ParseFrame(raw)
    case None => c
    case Some(f) =>
      if f.data.None? || f.data.value == "" then c
      else
        var n := if f.id.None? then 0 else match ParseDecimal(f.id.value) case None => 0 case Some(k) => k;
        var name := if f.event.None? then "" else f.event.value;
        c.(cursor := Max(c.cursor, n), delivered := c.delivered + [Message(n, name, f.data.value)])
  }

  function HandleAll(c: Client, frames: seq<string>): Client
    decreases |frames|
  {
    if frames == [] then c else HandleAll(Handle(c, frames[0]), frames[1..])
  }

  /** One chunk read from the connection. */
  function Receive(c: Client, chunk: string): Client {
    var (frames, rest) := Split(c.buffer + chunk);
    HandleAll(c, frames).(buffer := rest)
  }

  /** The subscription's fields and its loop over the frames of a chunk. */
  class Subscriber {
    var cursor: nat
    var buffer: string
    var delivered: seq<Message>

    ghost function View(): Client
      reads this
    {
      Client(cursor, buffer, delivered)
    }

    constructor (after: nat)
      ensures View() == Client(after, "", [])
    {
      cursor, buffer, delivered := after, "", [];
    }

    method Read(chunk: string)
      modifies this
      ensures View() == Receive(old(View()), chunk)
    {
      buffer := buffer + chunk;
      var (frames, rest) := Split(buffer);
      buffer := rest;
      ghost var start := old(View()).(buffer := rest);
      BufferUntouched(old(View()), frames, rest);
      for i := 0 to |frames|
        invariant HandleAll(start, frames) == HandleAll(View(), frames[i..])
        invariant buffer == rest
      {
        assert frames[i..][1..] == frames[i + 1..];
        var frame := ParseSseFrame(frames[i]);
        if frame.Some? && frame.value.data.Some? && frame.value.data.value != "" {
          var n := if frame.value.id.None? then 0
                   else match ParseDecimal(frame.value.id.value) case None => 0 case Some(k) => k;
          cursor := if cursor < n then n else cursor;
          delivered := delivered + [Message(n, if frame.value.event.None? then "" else frame.value.event.value, frame.value.data.value)];
        }
      }
    }
  }

  lemma {:induction false} BufferUntouched(c: Client, frames: seq<string>, b: string)
    ensures HandleAll(c.(buffer := b), frames) == HandleAll(c, frames).(buffer := b)
    decreases |frames|
  {
    if frames != [] {
      BufferUntouched(Handle(c, frames[0]), frames[1..], b);
      assert Handle(c.(buffer := b), frames[0]) == Handle(c, frames[0]).(buffer := b);
    }
  }

  lemma {:induction false} HandleConcat(c: Client, a: seq<string>, b: seq<string>)
    ensures HandleAll(c, a + b) == HandleAll(HandleAll(c, a), b)
    decreases |a|
  {
    if a == [] {
      assert a + b == b;
    } else {
      HandleConcat(Handle(c, a[0]), a[1..], b);
      assert (a + b)[1..] == a[1..] + b;
    }
  }

  // ------------------------------------------------------ what the server sends

  datatype Item = Sent(event: LogEvent) | Heartbeat

  function ItemText(item: Item): string {
    match item
    case Sent(e) => PrintFrame(e.sequence, e.name, e.data)
    case Heartbeat => HEARTBEAT
  }

  function ItemBody(item: Item): string {
    match item
    case Sent(e) => Body(e.sequence, e.name, e.data)
    case Heartbeat => ": heartbeat"
  }

  function Text(items: seq<Item>): string {
    if items == [] then "" else ItemText(items[0]) + Text(items[1..])
  }

  function Bodies(items: seq<Item>): seq<string> {
    seq(|items|, i requires 0 <= i < |items| => ItemBody(items[i]))
  }

  predicate SafeItem(item: Item) {
    item.Sent? ==> WireSafe(item.event)
  }

  predicate AllSafe(items: seq<Item>) {
    forall i :: 0 <= i < |items| ==> SafeItem(items[i])
  }

  lemma SplitItem(item: Item, t: string)
    requires SafeItem(item)
    ensures Split(ItemText(item) + t) == ([ItemBody(item)] + Split(t).0, Split(t).1)
  {
    hide Split, PrintFrame, Body;
    match item
    case Sent(e) => SplitPrinted(e.sequence, e.name, e.data, t);
    case Heartbeat => SplitHeartbeat(t);
  }

  lemma {:induction false} SplitText(items: seq<Item>)
    requires AllSafe(items)
    ensures Split(Text(items)) == (Bodies(items), "")
    decreases |items|
  {
    hide Split, ItemText, ItemBody, SafeItem;
    if items == [] {
      assert Split("") == ([], "") by { SplitEmpty(); }
    } else {
      SplitText(items[1..]);
      SplitItem(items[0], Text(items[1..]));
      assert Bodies(items) == [ItemBody(items[0])] + Bodies(items[1..]);
    }
  }

  lemma SplitEmpty()
    ensures Split("") == ([], "")
  {
  }

  lemma {:induction false} TextSnoc(items: seq<Item>, item: Item)
    ensures Text(items + [item]) == Text(items) + ItemText(item)
    decreases |items|
  {
    hide ItemText;
    if items == [] {
      assert ([] + [item])[1..] == [];
      assert "" + ItemText(item) == ItemText(item) == ItemText(item) + "";
    } else {
      TextSnoc(items[1..], item);
      var head, tail := ItemText(items[0]), Text(items[1..]);
      assert (items + [item])[0] == items[0] && (items + [item])[1..] == items[1..] + [item];
      assert head + (tail + ItemText(item)) == (head + tail) + ItemText(item);
    }
  }

  /** What an item does to the client once its frame is complete. */
  function Advance(c: Client, item: Item): Client {
    match item
    case Sent(e) => c.(cursor := Max(c.cursor, e.sequence), delivered := c.delivered + [MessageOf(e)])
    case Heartbeat => c
  }

  lemma HandleItem(c: Client, item: Item)
    requires SafeItem(item)
    ensures Handle(c, ItemBody(item)) == Advance(c, item)
  {
    hide ParseFrame, Body;
    match item
    case Sent(e) =>
      ParsePrinted(e.sequence, e.name, e.data);
      DecimalRoundTrip(e.sequence);
    case Heartbeat => SplitHeartbeat("");
  }

  /** The messages among the items. */
  function Messages(items: seq<Item>): seq<Message> {
    if items == [] then []
    else
      var last := items[|items| - 1];
      Messages(items[..|items| - 1]) + if last.Sent? then [MessageOf(last.event)] else []
  }

  function LastCursor(c: nat, items: seq<Item>): nat {
    if items == [] then c
    else
      var last := items[|items| - 1];
      if last.Sent? then Max(LastCursor(c, items[..|items| - 1]), last.event.sequence) else LastCursor(c, items[..|items| - 1])
  }

  /** Complete frames deliver exactly the messages of their items. */
  lemma {:induction false} HandleItems(c: Client, items: seq<Item>)
    requires AllSafe(items)
    ensures HandleAll(c, Bodies(items)) == c.(cursor := LastCursor(c.cursor, items), delivered := c.delivered + Messages(items))
    decreases |items|
  {
    hide ItemBody, SafeItem, Handle;
    if items != [] {
      var init, last := items[..|items| - 1], items[|items| - 1];
      HandleItems(c, init);
      assert Bodies(items) == Bodies(init) + [ItemBody(last)];
      HandleConcat(c, Bodies(init), [ItemBody(last)]);
      HandleItem(HandleAll(c, Bodies(init)), last);
      var d := HandleAll(c, Bodies(init));
      assert HandleAll(d, [ItemBody(last)]) == Handle(d, ItemBody(last)) by { assert [ItemBody(last)][1..] == []; }
    }
  }
}
