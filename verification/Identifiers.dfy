/** The identifiers of the run store as text: the structured identifiers of the model stand for
    different strings whenever they differ, so that comparing strings is comparing them. */
module Identifiers {
  import opened RunModel
  import opened SseWire

  /** Draws the random part of a run's first attempt id. */
  type Draw = RunId -> string

  /** Text without an underscore: random hexadecimal ids and decimal numbers. */
  predicate Plain(t: string) {
    '_' !in t
  }

  predicate HexDigits(t: string) {
    forall c :: c in t ==> '0' <= c <= '9' || 'a' <= c <= 'f'
  }

  /** Random ids are hexadecimal and never drawn twice. */
  ghost predicate Random(draw: Draw) {
    && (forall r :: HexDigits(draw(r)))
    && (forall r, q :: draw(r) == draw(q) ==> r == q)
  }

  function AttemptText(k: AttemptId, draw: Draw): string {
    match k
    case First(r) => "attempt" + ("_" + draw(r))
    case Retry(r, n) => "attempt_retry_" + r + ("_" + Decimal(n))
  }

  function EventText(id: EventId, draw: Draw): string {
    match id
    case TerminalOf(r, k) => "event_terminal_" + r + "_" + AttemptText(k, draw)
    case AttemptTerminal(r, k) => ("event_" + r + "_" + AttemptText(k, draw)) + ("_" + "terminal")
    case CancelledOf(r) => ("event_" + r) + ("_" + "cancelled")
    case Ordinary(text) => text
  }

  /** What follows the last underscore, and what precedes it, are determined by the text. */
  lemma LastUnderscore(x: string, k: string, y: string, l: string)
    requires Plain(k) && Plain(l) && x + ("_" + k) == y + ("_" + l)
    ensures x == y && k == l
  {
    var t, u := x + ("_" + k), y + ("_" + l);
    assert t[|x|] == '_' && u[|y|] == '_';
    assert forall i :: |x| < i < |t| ==> t[i] == k[i - |x| - 1] && t[i] != '_';
    assert forall i :: |y| < i < |u| ==> u[i] == l[i - |y| - 1] && u[i] != '_';
    assert t[..|x|] == x && u[..|y|] == y;
    assert t[|x| + 1..] == k && u[|y| + 1..] == l;
  }

  lemma SameHead(p: string, a: string, b: string)
    requires p + a == p + b
    ensures a == b
  {
    assert (p + a)[|p|..] == a && (p + b)[|p|..] == b;
  }

  /** The last segment of an attempt id: hexadecimal, hence neither "terminal" nor "cancelled". */
  lemma AttemptSegments(k: AttemptId, draw: Draw) returns (head: string, last: string)
    requires Random(draw)
    ensures AttemptText(k, draw) == head + ("_" + last) && Plain(last) && HexDigits(last)
    ensures k.First? ==> head == "attempt" && last == draw(k.run)
    ensures k.Retry? ==> head == "attempt_retry_" + k.run && last == Decimal(k.number)
  {
    match k
    case First(r) => head, last := "attempt", draw(r);
    case Retry(r, n) =>
      DecimalOneLine(n);
      head, last := "attempt_retry_" + r, Decimal(n);
  }

  /** Attempt ids never clash: not across runs, and not between a random and a derived one. */
  lemma AttemptIdsDiffer(j: AttemptId, k: AttemptId, draw: Draw)
    requires Random(draw) && AttemptText(j, draw) == AttemptText(k, draw)
    ensures j == k
  {
    hide AttemptText, HexDigits, Plain;
    var x, m := AttemptSegments(j, draw);
    var y, n := AttemptSegments(k, draw);
    LastUnderscore(x, m, y, n);
    assert |"attempt"| == 7 && |"attempt_retry_"| == 14;
    if j.Retry? && k.Retry? {
      SameHead("attempt_retry_", j.run, k.run);
      DecimalRoundTrip(j.number);
      DecimalRoundTrip(k.number);
    }
  }

  lemma NotHex()
    ensures Plain("terminal") && Plain("cancelled") && "terminal" != "cancelled"
    ensures !HexDigits("terminal") && !HexDigits("cancelled")
  {
    assert "terminal"[0] == 't' && "cancelled"[2] == 'n';
    assert 't' in "terminal" && 'n' in "cancelled";
    assert |"terminal"| == 8 && |"cancelled"| == 9;
  }

  /** The text of a terminal event id ends in a segment that tells its form. */
  lemma EventSegments(id: EventId, draw: Draw) returns (head: string, last: string)
    requires Random(draw) && TerminalId(id)
    ensures EventText(id, draw) == head + ("_" + last) && Plain(last)
    ensures id.TerminalOf? <==> HexDigits(last)
    ensures id.AttemptTerminal? <==> last == "terminal"
    ensures id.CancelledOf? <==> last == "cancelled"
    ensures id.AttemptTerminal? ==> head == "event_" + id.run + "_" + AttemptText(id.attempt, draw)
    ensures id.CancelledOf? ==> head == "event_" + id.run
  {
    hide AttemptText, Plain, HexDigits;
    NotHex();
    match id
    case TerminalOf(r, k) =>
      var h, l := AttemptSegments(k, draw);
      var p := "event_terminal_" + r + "_";
      assert p + (h + ("_" + l)) == (p + h) + ("_" + l);
      head, last := p + h, l;
    case AttemptTerminal(r, k) => head, last := "event_" + r + "_" + AttemptText(k, draw), "terminal";
    case CancelledOf(r) => head, last := "event_" + r, "cancelled";
  }

  /** Within the log of a run, terminal event ids clash only when they are the same. */
  lemma TerminalIdsDiffer(a: EventId, b: EventId, draw: Draw)
    requires Random(draw) && TerminalId(a) && TerminalId(b) && a.run == b.run
    requires EventText(a, draw) == EventText(b, draw)
    ensures a == b
  {
    hide AttemptText, Plain, HexDigits, Random;
    var x, m := EventSegments(a, draw);
    var y, n := EventSegments(b, draw);
    LastUnderscore(x, m, y, n);
    if a.TerminalOf? {
      SameHead("event_terminal_" + a.run + "_", AttemptText(a.attempt, draw), AttemptText(b.attempt, draw));
      AttemptIdsDiffer(a.attempt, b.attempt, draw);
    } else if a.AttemptTerminal? {
      SameHead("event_" + a.run + "_", AttemptText(a.attempt, draw), AttemptText(b.attempt, draw));
      AttemptIdsDiffer(a.attempt, b.attempt, draw);
    }
  }
}
