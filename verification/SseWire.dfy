/**
 The event-stream wire format: the server's frame printer and the client's
 chunk-wise frame splitter and frame parser.
 */
module SseWire {
  import opened Wrappers

  // ------------------------------------------------------- splitting frames

  /** Length of the blank-line separator `\r?\n\r?\n` that starts at `i`, or 0. */
  function SepAt(t: string, i: nat): (n: nat)
    requires i <= |t|
    ensures n > 0 ==> 2 <= n <= 4 && i + n <= |t|
  {
    var a := if i < |t| && t[i] == '\r' then i + 1 else i;
    if a < |t| && t[a] == '\n' then
      var b := if a + 1 < |t| && t[a + 1] == '\r' then a + 2 else a + 1;
      if b < |t| && t[b] == '\n' then b + 1 - i else 0
    else 0
  }

  /** The complete frames of a text and what is left over, scanning from `i`. */
  function SplitFrom(t: string, i: nat): (seq<string>, string)
    requires i <= |t|
    decreases |t|, |t| - i
  {
    if i == |t| then ([], t)
    else if SepAt(t, i) > 0 then
      var (frames, rest) := SplitFrom(t[i + SepAt(t, i)..], 0);
      ([t[..i]] + frames, rest)
    else SplitFrom(t, i + 1)
  }

  function Split(t: string): (seq<string>, string) {
    SplitFrom(t, 0)
  }

  predicate NoSepBefore(t: string, i: nat)
    requires i <= |t|
  {
    forall k :: 0 <= k < i ==> SepAt(t, k) == 0
  }

  lemma {:induction false} SkipTo(t: string, i: nat)
    requires i <= |t| && NoSepBefore(t, i)
    ensures Split(t) == SplitFrom(t, i)
  {
    if i > 0 {
      SkipTo(t, i - 1);
    }
  }

  lemma {:induction false} NoSepAtAll(t: string, i: nat)
    requires i <= |t| && forall k :: i <= k < |t| ==> SepAt(t, k) == 0
    ensures SplitFrom(t, i) == ([], t)
    decreases |t| - i
  {
    if i < |t| {
      NoSepAtAll(t, i + 1);
    }
  }

  /** A separator found in a prefix is the same in the whole text. */
  lemma SepStable(a: string, b: string, i: nat)
    requires i <= |a|
    ensures SepAt(a, i) > 0 ==> SepAt(a + b, i) == SepAt(a, i)
    ensures SepAt(a + b, i) > 0 && i + SepAt(a + b, i) <= |a| ==> SepAt(a, i) == SepAt(a + b, i)
  {
  }

  /** A separator that straddles the end of a prefix is the first and last one from there on. */
  lemma SepStraddles(a: string, b: string, i: nat, k: nat)
    requires i < k < |a| && SepAt(a, i) == 0 && SepAt(a + b, i) > 0
    ensures SepAt(a, k) == 0
  {
    SepStable(a, b, i);
    SepStable(a, b, k);
    var t := a + b;
    assert forall n :: 0 <= n < |a| ==> t[n] == a[n];
  }

  function Combine(split: (seq<string>, string), more: string): (seq<string>, string) {
    var (frames, rest) := Split(split.1 + more);
    (split.0 + frames, rest)
  }

  lemma {:induction false} ChunkFrom(a: string, b: string, i: nat)
    requires i <= |a| && NoSepBefore(a + b, i)
    ensures SplitFrom(a + b, i) == Combine(SplitFrom(a, i), b)
    decreases |a|, |a| - i
  {
    hide SepAt;
    var t := a + b;
    if i == |a| {
      SkipTo(t, i);
      assert [] + Split(t).0 == Split(t).0;
    } else if SepAt(a, i) > 0 {
      SepStable(a, b, i);
      var n := i + SepAt(a, i);
      assert t[n..] == a[n..] + b && t[..i] == a[..i];
      ChunkFrom(a[n..], b, 0);
      var (frames, rest) := SplitFrom(a[n..], 0);
      assert [a[..i]] + (frames + Split(rest + b).0) == ([a[..i]] + frames) + Split(rest + b).0;
    } else if SepAt(t, i) == 0 {
      ChunkFrom(a, b, i + 1);
      assert SplitFrom(a, i) == SplitFrom(a, i + 1) && SplitFrom(t, i) == SplitFrom(t, i + 1);
    } else {
      forall k | i < k < |a| ensures SepAt(a, k) == 0 { SepStraddles(a, b, i, k); }
      NoSepAtAll(a, i);
      SkipTo(t, i);
      assert SplitFrom(a, i) == ([], a) && Split(t) == SplitFrom(t, i);
      assert [] + Split(t).0 == Split(t).0;
    }
  }

  /** Splitting a text chunk by chunk, carrying the left-over, is splitting it whole. */
  lemma ChunkIndependent(a: string, b: string)
    ensures Split(a + b) == Combine(Split(a), b)
  {
    ChunkFrom(a, b, 0);
  }

  function Concat(chunks: seq<string>): string {
    if chunks == [] then "" else chunks[0] + Concat(chunks[1..])
  }

  /** The client's reading loop over any sequence of chunks. */
  function Feed(buffer: string, chunks: seq<string>): (seq<string>, string)
    decreases |chunks|
  {
    if chunks == [] then ([], buffer)
    else
      var (frames, rest) := Split(buffer + chunks[0]);
      var (more, last) := Feed(rest, chunks[1..]);
      (frames + more, last)
  }

  /** Whatever the chunks, the frames are those of the whole text. */
  lemma {:induction false} AnyChunking(buffer: string, chunks: seq<string>)
    requires Split(buffer) == ([], buffer)
    ensures Feed(buffer, chunks) == Split(buffer + Concat(chunks))
    decreases |chunks|
  {
    hide Split;
    if chunks == [] {
      assert buffer + Concat(chunks) == buffer;
    } else {
      var (frames, rest) := Split(buffer + chunks[0]);
      RestHasNoFrame(buffer + chunks[0]);
      AnyChunking(rest, chunks[1..]);
      ChunkIndependent(buffer + chunks[0], Concat(chunks[1..]));
      assert buffer + Concat(chunks) == (buffer + chunks[0]) + Concat(chunks[1..]);
    }
  }

  lemma {:induction false} RestFrom(t: string, i: nat)
    requires i <= |t| && NoSepBefore(t, i)
    ensures Split(SplitFrom(t, i).1) == ([], SplitFrom(t, i).1)
    decreases |t|, |t| - i
  {
    if i == |t| {
      SkipTo(t, i);
    } else if SepAt(t, i) > 0 {
      RestFrom(t[i + SepAt(t, i)..], 0);
    } else {
      RestFrom(t, i + 1);
    }
  }

  /** The left-over holds no complete frame. */
  lemma RestHasNoFrame(t: string)
    ensures Split(Split(t).1) == ([], Split(t).1)
  {
    RestFrom(t, 0);
  }

  // -------------------------------------------------------- parsing a frame

  datatype Frame = Frame(id: Option<string>, event: Option<string>, data: Option<string>)

  const NoFields := Frame(None, None, None)

  /** Length of the line break `\r?\n` that starts at `i`, or 0. */
  function BreakAt(t: string, i: nat): nat
    requires i <= |t|
  {
    if i < |t| && t[i] == '\n' then 1
    else if i + 1 < |t| && t[i] == '\r' && t[i + 1] == '\n' then 2
    else 0
  }

  function LinesFrom(t: string, i: nat): seq<string>
    requires i <= |t|
    decreases |t|, |t| - i
  {
    if i == |t| then [t]
    else if BreakAt(t, i) > 0 then [t[..i]] + LinesFrom(t[i + BreakAt(t, i)..], 0)
    else LinesFrom(t, i + 1)
  }

  function IndexOf(t: string, c: char, i: nat): nat
    requires i <= |t|
    ensures i <= IndexOf(t, c, i) <= |t|
    decreases |t| - i
  {
    if i == |t| || t[i] == c then i else IndexOf(t, c, i + 1)
  }

  function WithoutLeadingSpace(t: string): string {
    if t != "" && t[0] == ' ' then t[1..] else t
  }

  /** What one line adds to a frame. */
  function Absorb(f: Frame, line: string): Frame {
    if line == "" || line[0] == ':' then f
    else
      var colon := IndexOf(line, ':', 0);
      var field := line[..colon];
      var value := if colon == |line| then "" else WithoutLeadingSpace(line[colon + 1..]);
      if field == "id" then f.(id := Some(value))
      else if field == "event" then f.(event := Some(value))
      else if field == "data" then
        f.(data := Some(if f.data.Some? && f.data.value != "" then f.data.value + "\n" + value else value))
      else f
  }

  function AbsorbAll(f: Frame, lines: seq<string>): Frame
    decreases |lines|
  {
    if lines == [] then f else AbsorbAll(Absorb(f, lines[0]), lines[1..])
  }

  function ParseFrame(raw: string): Option<Frame> {
    var f := AbsorbAll(NoFields, LinesFrom(raw, 0));
    if f == NoFields then None else Some(f)
  }

  /** The parser's loop over the lines of a frame. */
  method ParseSseFrame(raw: string) returns (frame: Option<Frame>)
    ensures frame == ParseFrame(raw)
  {
    var lines := LinesFrom(raw, 0);
    var f := NoFields;
    for i := 0 to |lines|
      invariant AbsorbAll(NoFields, lines) == AbsorbAll(f, lines[i..])
    {
      f := Absorb(f, lines[i]);
      assert lines[i..][1..] == lines[i + 1..];
    }
    return if f == NoFields then None else Some(f);
  }

  // -------------------------------------------------------- printing a frame

  function Digit(n: nat): char
    requires n < 10
  {
    ['0', '1', '2', '3', '4', '5', '6', '7', '8', '9'][n]
  }

  function Decimal(n: nat): string {
    if n < 10 then [Digit(n)] else Decimal(n / 10) + [Digit(n % 10)]
  }

  /** The lines of a printed frame, without the blank line that ends it. */
  function Body(id: nat, event: string, data: string): string {
    "id: " + Decimal(id) + "\n" + ("event: " + event + "\n" + ("data: " + data))
  }

  function PrintFrame(id: nat, event: string, data: string): string {
    Body(id, event, data) + "\n\n"
  }

  /** Text that stays on its line: no line feed, and no carriage return right before one. */
  predicate OneLine(t: string) {
    '\n' !in t && (t == "" || t[|t| - 1] != '\r')
  }

  lemma {:induction false} DecimalOneLine(n: nat)
    ensures OneLine(Decimal(n)) && Decimal(n) != "" && forall c :: c in Decimal(n) ==> '0' <= c <= '9'
  {
    if n >= 10 {
      DecimalOneLine(n / 10);
    }
  }

  lemma PrefixOneLine(p: string, t: string)
    requires OneLine(p) && p != "" && OneLine(t)
    ensures OneLine(p + t)
  {
  }

  /** A line break ends a one-line text exactly where it stands. */
  lemma LineEnds(line: string, t: string)
    requires OneLine(line)
    ensures LinesFrom(line + "\n" + t, 0) == [line] + LinesFrom(t, 0)
  {
    var text := line + "\n" + t;
    LineScan(line, t, 0);
  }

  lemma {:induction false} LineScan(line: string, t: string, i: nat)
    requires OneLine(line) && i <= |line|
    ensures LinesFrom(line + "\n" + t, i) == [line] + LinesFrom(t, 0)
    decreases |line| - i
  {
    var text := line + "\n" + t;
    assert text[|line|] == '\n';
    if i == |line| {
      assert BreakAt(text, i) == 1 && text[i + 1..] == t && text[..i] == line;
    } else {
      assert text[i] == line[i] && (i + 1 < |line| ==> text[i + 1] == line[i + 1]);
      assert BreakAt(text, i) == 0;
      LineScan(line, t, i + 1);
    }
  }

  lemma {:induction false} LastLine(line: string, i: nat)
    requires '\n' !in line && i <= |line|
    ensures LinesFrom(line, i) == [line]
    decreases |line| - i
  {
    if i < |line| {
      LastLine(line, i + 1);
    }
  }

  /** Parsing one printed field line. */
  lemma AbsorbField(f: Frame, field: string, value: string)
    requires field in {"id", "event", "data"}
    ensures field == "id" ==> Absorb(f, field + ": " + value) == f.(id := Some(value))
    ensures field == "event" ==> Absorb(f, field + ": " + value) == f.(event := Some(value))
    ensures field == "data" ==>
      Absorb(f, field + ": " + value) == f.(data := Some(if f.data.None? || f.data.value == "" then value else f.data.value + "\n" + value))
  {
    var line := field + ": " + value;
    assert line[|field|] == ':';
    ColonAt(line, |field|, 0);
    assert line[..|field|] == field;
    assert line[|field| + 1..] == " " + value;
    assert (" " + value)[1..] == value;
  }

  /** Comments, blank lines and unknown fields add nothing. */
  lemma AbsorbOther(f: Frame, field: string, value: string)
    requires field !in {"id", "event", "data"} && ':' !in field
    ensures Absorb(f, field + ":" + value) == f && Absorb(f, "") == f
  {
    var line := field + ":" + value;
    assert line[|field|] == ':';
    if field != "" {
      ColonAt(line, |field|, 0);
      assert line[..|field|] == field;
    }
  }

  function JoinLines(parts: seq<string>): string {
    if parts == [] then "" else if |parts| == 1 then parts[0] else JoinLines(parts[..|parts| - 1]) + "\n" + parts[|parts| - 1]
  }

  function DataLines(parts: seq<string>): seq<string> {
    seq(|parts|, i requires 0 <= i < |parts| => "data" + ": " + parts[i])
  }

  /** Several data lines make one datum, joined by line feeds; the joining starts at the first
      part that is not empty, where the standard would start at the first. */
  lemma {:induction false} DataJoins(f: Frame, parts: seq<string>)
    requires parts != [] && parts[0] != "" && f.data.None?
    ensures AbsorbAll(f, DataLines(parts)) == f.(data := Some(JoinLines(parts))) && JoinLines(parts) != ""
  {
    hide Absorb;
    var n := |parts| - 1;
    var lines, init := DataLines(parts), parts[..n];
    assert lines == DataLines(init) + ["data" + ": " + parts[n]];
    AbsorbSnoc(f, DataLines(init), "data" + ": " + parts[n]);
    if n == 0 {
      assert DataLines(init) == [] && AbsorbAll(f, []) == f;
      AbsorbField(f, "data", parts[0]);
    } else {
      DataJoins(f, init);
      AbsorbField(f.(data := Some(JoinLines(init))), "data", parts[n]);
    }
  }

  lemma {:induction false} AbsorbSnoc(f: Frame, lines: seq<string>, line: string)
    ensures AbsorbAll(f, lines + [line]) == Absorb(AbsorbAll(f, lines), line)
    decreases |lines|
  {
    hide Absorb;
    if lines == [] {
      assert ([] + [line])[1..] == [];
      assert AbsorbAll(f, [line]) == AbsorbAll(Absorb(f, line), []);
      assert [] + [line] == [line];
    } else {
      AbsorbSnoc(Absorb(f, lines[0]), lines[1..], line);
      assert (lines + [line])[1..] == lines[1..] + [line];
    }
  }

  lemma {:induction false} ColonAt(line: string, n: nat, i: nat)
    requires i <= n < |line| && line[n] == ':' && forall k :: 0 <= k < n ==> line[k] != ':'
    ensures IndexOf(line, ':', i) == n
    decreases n - i
  {
    if i < n {
      ColonAt(line, n, i + 1);
    }
  }

  /** The fields of a printed frame are read back. */
  lemma ParsePrinted(id: nat, event: string, data: string)
    requires OneLine(event) && '\n' !in data
    ensures ParseFrame(Body(id, event, data)) == Some(Frame(Some(Decimal(id)), Some(event), Some(data)))
  {
    var l1, l2, l3 := "id: " + Decimal(id), "event: " + event, "data: " + data;
    DecimalOneLine(id);
    PrefixOneLine("id: ", Decimal(id));
    PrefixOneLine("event: ", event);
    LineEnds(l1, l2 + "\n" + l3);
    LineEnds(l2, l3);
    LastLine(l3, 0);
    assert Body(id, event, data) == l1 + "\n" + (l2 + "\n" + l3);
    assert LinesFrom(Body(id, event, data), 0) == [l1, l2, l3];
    ThreeFields(id, event, data);
  }

  lemma ThreeFields(id: nat, event: string, data: string)
    ensures AbsorbAll(NoFields, ["id: " + Decimal(id), "event: " + event, "data: " + data]) ==
      Frame(Some(Decimal(id)), Some(event), Some(data))
  {
    hide Absorb, Decimal;
    var l1, l2, l3 := "id: " + Decimal(id), "event: " + event, "data: " + data;
    assert l1 == "id" + ": " + Decimal(id) && l2 == "event" + ": " + event && l3 == "data" + ": " + data;
    AbsorbField(NoFields, "id", Decimal(id));
    AbsorbField(Frame(Some(Decimal(id)), None, None), "event", event);
    AbsorbField(Frame(Some(Decimal(id)), Some(event), None), "data", data);
    assert [l1, l2, l3][1..] == [l2, l3] && [l2, l3][1..] == [l3] && [l3][1..] == [];
    assert AbsorbAll(NoFields, [l1, l2, l3]) == AbsorbAll(Absorb(NoFields, l1), [l2, l3]);
    var f1 := Frame(Some(Decimal(id)), None, None);
    assert AbsorbAll(f1, [l2, l3]) == AbsorbAll(Absorb(f1, l2), [l3]);
    var f2 := Frame(Some(Decimal(id)), Some(event), None);
    assert AbsorbAll(f2, [l3]) == AbsorbAll(Absorb(f2, l3), []);
  }

  // ------------------------------------------------------ the exact condition

  lemma {:induction false} LinesHaveNoBreak(t: string, i: nat)
    requires i <= |t| && '\n' !in t[..i]
    ensures forall n :: 0 <= n < |LinesFrom(t, i)| ==> '\n' !in LinesFrom(t, i)[n]
    decreases |t|, |t| - i
  {
    if i == |t| {
      assert t[..i] == t;
    } else if BreakAt(t, i) > 0 {
      LinesHaveNoBreak(t[i + BreakAt(t, i)..], 0);
    } else {
      assert t[..i + 1] == t[..i] + [t[i]];
      LinesHaveNoBreak(t, i + 1);
    }
  }

  lemma {:induction false} EventHasNoBreak(f: Frame, lines: seq<string>)
    requires f.event.Some? ==> '\n' !in f.event.value
    requires forall n :: 0 <= n < |lines| ==> '\n' !in lines[n]
    ensures var g := AbsorbAll(f, lines); g.event.Some? ==> '\n' !in g.event.value
    decreases |lines|
  {
    if lines != [] {
      EventHasNoBreak(Absorb(f, lines[0]), lines[1..]);
    }
  }

  /** A trailing carriage return is taken for part of the line break. */
  lemma LineEndsWithReturn(line: string, t: string)
    requires '\n' !in line
    ensures LinesFrom(line + "\r\n" + t, 0) == [line] + LinesFrom(t, 0)
  {
    ReturnScan(line, t, 0);
  }

  lemma {:induction false} ReturnScan(line: string, t: string, i: nat)
    requires '\n' !in line && i <= |line|
    ensures LinesFrom(line + "\r\n" + t, i) == [line] + LinesFrom(t, 0)
    decreases |line| - i
  {
    var text := line + "\r\n" + t;
    assert text[|line|] == '\r' && text[|line| + 1] == '\n';
    if i == |line| {
      assert BreakAt(text, i) == 2 && text[i + 2..] == t && text[..i] == line;
    } else {
      assert text[i] == line[i] && (i + 1 < |line| ==> text[i + 1] == line[i + 1]);
      assert BreakAt(text, i) == 0;
      ReturnScan(line, t, i + 1);
    }
  }

  /** The event name is read back exactly when it stays on its line. */
  lemma EventNameExact(id: nat, event: string, data: string)
    requires '\n' !in data
    ensures ParseFrame(Body(id, event, data)) == Some(Frame(Some(Decimal(id)), Some(event), Some(data))) <==> OneLine(event)
  {
    if OneLine(event) {
      ParsePrinted(id, event, data);
    } else if '\n' in event {
      var raw := Body(id, event, data);
      LinesHaveNoBreak(raw, 0);
      EventHasNoBreak(NoFields, LinesFrom(raw, 0));
    } else {
      var name := event[..|event| - 1];
      var l1, l2, l3 := "id: " + Decimal(id), "event: " + name, "data: " + data;
      DecimalOneLine(id);
      PrefixOneLine("id: ", Decimal(id));
      LineEnds(l1, l2 + "\r\n" + l3);
      LineEndsWithReturn(l2, l3);
      LastLine(l3, 0);
      assert Body(id, event, data) == l1 + "\n" + (l2 + "\r\n" + l3) by { assert event == name + "\r"; }
      assert LinesFrom(Body(id, event, data), 0) == [l1, l2, l3];
      ThreeFields(id, name, data);
    }
  }

  // -------------------------------------------- printed frames on the stream

  /** Text in which no separator starts before its end, whatever follows on the same line. */
  lemma {:induction false} SplitShift(p: string, t: string, i: nat)
    requires i <= |t| && NoSepBefore(p + t, |p|)
    ensures var (frames, rest) := SplitFrom(t, i);
      SplitFrom(p + t, |p| + i) == if frames == [] then ([], p + rest) else ([p + frames[0]] + frames[1..], rest)
    decreases |t| - i
  {
    hide SepAt;
    var text := p + t;
    if i < |t| {
      SepShift(p, t, i);
      if SepAt(t, i) > 0 {
        assert text[|p| + i + SepAt(t, i)..] == t[i + SepAt(t, i)..];
        assert text[..|p| + i] == p + t[..i];
      } else {
        SplitShift(p, t, i + 1);
      }
    }
  }

  lemma SepShift(p: string, t: string, i: nat)
    requires i <= |t|
    ensures SepAt(p + t, |p| + i) == SepAt(t, i)
  {
    var text := p + t;
    assert forall n :: 0 <= n < |t| ==> text[|p| + n] == t[n];
  }

  /** No separator starts within a one-line text, nor at its line break when text follows. */
  lemma NoSepInLine(line: string, t: string)
    requires OneLine(line) && t != "" && t[0] != '\n' && t[0] != '\r'
    ensures NoSepBefore(line + "\n" + t, |line| + 1)
  {
    var text := line + "\n" + t;
    assert text[|line|] == '\n' && text[|line| + 1] == t[0];
    forall k | 0 <= k < |line| + 1 ensures SepAt(text, k) == 0 {
      assert k < |line| ==> text[k] == line[k];
      assert k + 1 < |line| ==> text[k + 1] == line[k + 1];
    }
  }

  lemma NoSepInLastLine(line: string, t: string)
    requires OneLine(line)
    ensures NoSepBefore(line + "\n\n" + t, |line|) && SepAt(line + "\n\n" + t, |line|) == 2
  {
    var text := line + "\n\n" + t;
    assert text[|line|] == '\n' && text[|line| + 1] == '\n';
    forall k | 0 <= k < |line| ensures SepAt(text, k) == 0 {
      assert text[k] == line[k];
      assert k + 1 < |line| ==> text[k + 1] == line[k + 1];
    }
  }

  /** A one-line frame is cut off the stream whole. */
  lemma SplitLastLine(line: string, t: string)
    requires OneLine(line)
    ensures Split(line + "\n\n" + t) == ([line] + Split(t).0, Split(t).1)
  {
    var text := line + "\n\n" + t;
    NoSepInLastLine(line, t);
    SkipTo(text, |line|);
    assert text[|line| + 2..] == t && text[..|line|] == line;
  }

  /** Every form of blank line ends a frame: with or without carriage returns. */
  lemma SplitAnyBlankLine(line: string, sep: string, t: string)
    requires OneLine(line) && sep in {"\n\n", "\r\n\n", "\n\r\n", "\r\n\r\n"}
    ensures Split(line + sep + t) == ([line] + Split(t).0, Split(t).1)
  {
    hide SepAt, OneLine;
    var text := line + sep + t;
    SepAfterLine(line, sep, t);
    SkipTo(text, |line|);
    assert text[|line| + |sep|..] == t && text[..|line|] == line;
  }

  lemma SepAfterLine(line: string, sep: string, t: string)
    requires OneLine(line) && sep in {"\n\n", "\r\n\n", "\n\r\n", "\r\n\r\n"}
    ensures NoSepBefore(line + sep + t, |line|) && SepAt(line + sep + t, |line|) == |sep| > 0
  {
    var text, n := line + sep + t, |line|;
    assert text[n] == sep[0] && text[n + 1] == sep[1];
    assert |sep| > 2 ==> text[n + 2] == sep[2];
    assert |sep| > 3 ==> text[n + 3] == sep[3];
    forall k | 0 <= k < n ensures SepAt(text, k) == 0 {
      assert text[k] == line[k];
      assert k + 1 < n ==> text[k + 1] == line[k + 1];
    }
  }

  lemma SplitLine(line: string, t: string)
    requires OneLine(line) && t != "" && t[0] != '\n' && t[0] != '\r'
    ensures var (frames, rest) := Split(t);
      Split(line + "\n" + t) == if frames == [] then ([], line + "\n" + rest) else ([line + "\n" + frames[0]] + frames[1..], rest)
  {
    var p := line + "\n";
    NoSepInLine(line, t);
    SkipTo(p + t, |p|);
    SplitShift(p, t, 0);
  }

  /** A printed frame is cut off the stream whole. */
  lemma SplitPrinted(id: nat, event: string, data: string, t: string)
    requires OneLine(event) && OneLine(data)
    ensures Split(PrintFrame(id, event, data) + t) == ([Body(id, event, data)] + Split(t).0, Split(t).1)
  {
    var l1, l2, l3 := "id: " + Decimal(id), "event: " + event, "data: " + data;
    DecimalOneLine(id);
    PrefixOneLine("id: ", Decimal(id));
    PrefixOneLine("event: ", event);
    PrefixOneLine("data: ", data);
    hide Split, Decimal, OneLine;
    SplitLastLine(l3, t);
    SplitLine(l2, l3 + "\n\n" + t);
    var tail := l2 + "\n" + (l3 + "\n\n" + t);
    SplitLine(l1, tail);
    assert PrintFrame(id, event, data) + t == l1 + "\n" + tail;
    assert l1 + "\n" + (l2 + "\n" + l3) == Body(id, event, data);
  }

  const HEARTBEAT := ": heartbeat\n\n"

  lemma HeartbeatOneLine()
    ensures OneLine(": heartbeat") && '\n' !in ": heartbeat"
  {
    var t := ": heartbeat";
    assert t == [':', ' ', 'h', 'e', 'a', 'r', 't', 'b', 'e', 'a', 't'];
    assert forall i :: 0 <= i < |t| ==> t[i] != '\n';
  }

  /** A heartbeat is a frame without fields. */
  lemma SplitHeartbeat(t: string)
    ensures Split(HEARTBEAT + t) == ([": heartbeat"] + Split(t).0, Split(t).1)
    ensures ParseFrame(": heartbeat").None?
  {
    HeartbeatOneLine();
    hide OneLine;
    SplitLastLine(": heartbeat", t);
    LastLine(": heartbeat", 0);
    assert HEARTBEAT + t == ": heartbeat" + "\n\n" + t;
    assert AbsorbAll(NoFields, [": heartbeat"]) == NoFields;
  }

  // ------------------------------------------------------ sequence numbers

  predicate IsDigit(c: char) {
    '0' <= c <= '9'
  }

  /** The number a digit string denotes; none for anything else. */
  function ParseDecimal(t: string): Option<nat> {
    if t == "" then None
    else
      var last := t[|t| - 1];
      if !IsDigit(last) then None
      else if |t| == 1 then Some((last - '0') as nat)
      else match ParseDecimal(t[..|t| - 1])
           case None => None
           case Some(n) => Some(10 * n + (last - '0') as nat)
  }

  lemma {:induction false} DecimalRoundTrip(n: nat)
    ensures ParseDecimal(Decimal(n)) == Some(n)
  {
    DecimalOneLine(n);
    if n >= 10 {
      DecimalRoundTrip(n / 10);
      DecimalOneLine(n / 10);
      assert Decimal(n)[..|Decimal(n)| - 1] == Decimal(n / 10);
    }
  }

  /** The part of a `last-event-id` header after its last colon. */
  function LastSegment(header: string): string
    decreases |header|
  {
    if header == "" then "" 
    else if header[|header| - 1] == ':' then ""
    else LastSegment(header[..|header| - 1]) + [header[|header| - 1]]
  }

  /** Where the server resumes: the later of the query parameter and the header. */
  function EventCursor(header: string, after: nat): nat {
    match ParseDecimal(LastSegment(header))
    case None => after
    case Some(n) => if after < n then n else after
  }

  lemma {:induction false} NoColonSegment(header: string)
    requires ':' !in header
    ensures LastSegment(header) == header
  {
    if header != "" {
      NoColonSegment(header[..|header| - 1]);
    }
  }

  /** The server resumes at the later of parameter and header, whether or not the header names the
      run before a colon; a header that is no number does not count. */
  lemma EventCursorExact(prefix: string, n: nat, after: nat)
    ensures EventCursor(Decimal(n), after) == (if after < n then n else after)
    ensures EventCursor(prefix + ":" + Decimal(n), after) == (if after < n then n else after)
    ensures EventCursor("", after) == after
  {
    DecimalOneLine(n);
    DecimalRoundTrip(n);
    NoColonSegment(Decimal(n));
    AfterColon(prefix, Decimal(n));
  }

  lemma {:induction false} AfterColon(prefix: string, t: string)
    requires ':' !in t
    ensures LastSegment(prefix + ":" + t) == t
    decreases |t|
  {
    var text := prefix + ":" + t;
    if t != "" {
      var n := |t| - 1;
      AfterColon(prefix, t[..n]);
      assert text[..|text| - 1] == prefix + ":" + t[..n];
      assert t[..n] + [t[n]] == t;
    }
  }

  /** The client sends its cursor both ways, so the server resumes right there. */
  lemma ResumesAtCursor(cursor: nat)
    ensures EventCursor(Decimal(cursor), cursor) == cursor
  {
    DecimalOneLine(cursor);
    NoColonSegment(Decimal(cursor));
    DecimalRoundTrip(cursor);
  }
}
