/** URL-safe base64 as page cursors use it: sections 3.2 and 5 of RFC 4648. The decoder is the
    lenient one of the standard library: characters outside the alphabet are skipped. */
module Base64 {
  import opened Wrappers

  newtype byte = n: int | 0 <= n < 256
  newtype digit = n: int | 0 <= n < 64

  function Char(d: digit): char {
    var n := d as int;
    if n < 26 then 'A' + n as char
    else if n < 52 then 'a' + (n - 26) as char
    else if n < 62 then '0' + (n - 52) as char
    else if n == 62 then '-'
    else '_'
  }

  /** `-` and `_` are translated to the standard alphabet first, so that one is read as well. */
  function Value(c: char): Option<digit> {
    if 'A' <= c <= 'Z' then Some((c - 'A') as digit)
    else if 'a' <= c <= 'z' then Some(26 + (c - 'a') as digit)
    else if '0' <= c <= '9' then Some(52 + (c - '0') as digit)
    else if c == '-' || c == '+' then Some(62)
    else if c == '_' || c == '/' then Some(63)
    else None
  }

  lemma CharValue(d: digit)
    ensures Value(Char(d)) == Some(d) && Char(d) != '=' && Char(d) < 128 as char
  {
  }

  // The four digits of a group of three bytes.
  function First(a: byte): digit { (a as int / 4) as digit }
  function Second(a: byte, b: byte): digit { (a as int % 4 * 16 + b as int / 16) as digit }
  function Third(b: byte, c: byte): digit { (b as int % 16 * 4 + c as int / 64) as digit }
  function Fourth(c: byte): digit { (c as int % 64) as digit }

  /** Groups of three bytes, then one or two left over, padded with `=`. */
  function Encode(s: seq<byte>): string
    decreases |s|
  {
    if s == [] then ""
    else if |s| == 1 then [Char(First(s[0])), Char(Second(s[0], 0)), '=', '=']
    else if |s| == 2 then [Char(First(s[0])), Char(Second(s[0], s[1])), Char(Third(s[1], 0)), '=']
    else [Char(First(s[0])), Char(Second(s[0], s[1])), Char(Third(s[1], s[2])), Char(Fourth(s[2]))] + Encode(s[3..])
  }

  /** The decoder between two characters: digits read of this group, the last of them, and the
      padding characters met since. */
  datatype Decoder = Decoder(quad: int, left: digit, pads: nat)

  /** The byte that digit `d` completes, after `left`, at each place of a group. */
  function Completed(quad: int, left: digit, d: digit): (r: seq<byte>)
    requires 0 <= quad < 4
  {
    var x, y := left as int, d as int;
    if quad == 0 then []
    else if quad == 1 then [(x * 4 + y / 16) as byte]
    else if quad == 2 then [(x % 16 * 16 + y / 4) as byte]
    else [(x % 4 * 64 + y) as byte]
  }

  function Prepend(head: seq<byte>, rest: Option<seq<byte>>): Option<seq<byte>> {
    match rest case None => None case Some(tail) => Some(head + tail)
  }

  /** Reading stops at the padding that fills a group; ending inside a group is an error. */
  function Read(t: string, d: Decoder): Option<seq<byte>>
    requires 0 <= d.quad < 4
  {
    if t == "" then
      if d.quad == 0 then Some([]) else None
    else if t[0] == '=' then
      if d.quad >= 2 && d.quad + d.pads + 1 >= 4 then Some([])
      else Read(t[1..], if d.quad >= 2 then d.(pads := d.pads + 1) else d)
    else match Value(t[0])
      case None => Read(t[1..], d)
      case Some(v) =>
        Prepend(Completed(d.quad, d.left, v), Read(t[1..], Decoder(if d.quad == 3 then 0 else d.quad + 1, v, 0)))
  }

  /** Text outside ASCII is refused before decoding. */
  function Decode(t: string): Option<seq<byte>> {
    if forall i :: 0 <= i < |t| ==> t[i] < 128 as char then Read(t, Decoder(0, 0, 0)) else None
  }

  lemma CompletedGroup(a: byte, b: byte, c: byte)
    ensures Completed(1, First(a), Second(a, b)) == [a]
    ensures Completed(2, Second(a, b), Third(b, c)) == [b]
    ensures Completed(3, Third(b, c), Fourth(c)) == [c]
  {
  }

  /** One digit read. */
  lemma ReadDigit(v: digit, t: string, d: Decoder)
    requires 0 <= d.quad < 4
    ensures Read([Char(v)] + t, d)
      == Prepend(Completed(d.quad, d.left, v), Read(t, Decoder(if d.quad == 3 then 0 else d.quad + 1, v, 0)))
  {
    hide Char, Value, Completed;
    CharValue(v);
    assert ([Char(v)] + t)[1..] == t;
  }

  lemma NothingPrepended(o: Option<seq<byte>>)
    ensures Prepend([], o) == o
  {
    assert o.Some? ==> [] + o.value == o.value;
  }

  lemma ReadTwo(v: digit, w: digit, t: string, left: digit)
    ensures Read([Char(v), Char(w)] + t, Decoder(0, left, 0)) == Prepend(Completed(1, v, w), Read(t, Decoder(2, w, 0)))
  {
    hide Char, Read;
    assert [Char(v), Char(w)] + t == [Char(v)] + ([Char(w)] + t);
    ReadDigit(v, [Char(w)] + t, Decoder(0, left, 0));
    ReadDigit(w, t, Decoder(1, v, 0));
    NothingPrepended(Read([Char(w)] + t, Decoder(1, v, 0)));
  }

  lemma ReadGroup(a: byte, b: byte, c: byte, rest: string, left: digit)
    ensures Read([Char(First(a)), Char(Second(a, b)), Char(Third(b, c)), Char(Fourth(c))] + rest, Decoder(0, left, 0))
      == Prepend([a, b, c], Read(rest, Decoder(0, Fourth(c), 0)))
  {
    hide Char, First, Second, Third, Fourth, Completed, Read;
    CompletedGroup(a, b, c);
    var last := [Char(Fourth(c))] + rest;
    assert [Char(First(a)), Char(Second(a, b)), Char(Third(b, c)), Char(Fourth(c))] + rest
        == [Char(First(a)), Char(Second(a, b))] + ([Char(Third(b, c))] + last);
    ReadTwo(First(a), Second(a, b), [Char(Third(b, c))] + last, left);
    ReadDigit(Third(b, c), last, Decoder(2, Second(a, b), 0));
    ReadDigit(Fourth(c), rest, Decoder(3, Third(b, c), 0));
    var r := Read(rest, Decoder(0, Fourth(c), 0));
    assert r.Some? ==> [a] + ([b] + ([c] + r.value)) == [a, b, c] + r.value;
  }

  /** What was encoded comes back; the digit left over from an earlier group is never used. */
  lemma {:induction false} ReadEncoded(s: seq<byte>, left: digit)
    ensures Read(Encode(s), Decoder(0, left, 0)) == Some(s)
    decreases |s|
  {
    hide Char, First, Second, Third, Fourth, Completed, Read;
    if s == [] {
      ReadEnds(left);
    } else if |s| == 1 {
      var a := s[0];
      CompletedGroup(a, 0, 0);
      assert Encode(s) == [Char(First(a)), Char(Second(a, 0))] + "==" && s == [a] + [];
      ReadTwo(First(a), Second(a, 0), "==", left);
      ReadPads(Second(a, 0), 0);
    } else if |s| == 2 {
      var a, b := s[0], s[1];
      CompletedGroup(a, b, 0);
      assert Encode(s) == [Char(First(a)), Char(Second(a, b))] + ([Char(Third(b, 0))] + "=");
      ReadTwo(First(a), Second(a, b), [Char(Third(b, 0))] + "=", left);
      ReadDigit(Third(b, 0), "=", Decoder(2, Second(a, b), 0));
      ReadPads(0, Third(b, 0));
      assert s == [a] + ([b] + []);
    } else {
      var c, rest := s[2], Encode(s[3..]);
      ReadGroup(s[0], s[1], c, rest, left);
      ReadEncoded(s[3..], Fourth(c));
      assert s == [s[0], s[1], c] + s[3..];
    }
  }

  lemma ReadEnds(left: digit)
    ensures Read("", Decoder(0, left, 0)) == Some([])
  {
  }

  lemma ReadPads(v: digit, w: digit)
    ensures Read("==", Decoder(2, v, 0)) == Some([])
    ensures Read("=", Decoder(3, w, 0)) == Some([])
  {
    assert "=="[1..] == "=";
  }

  lemma {:induction false} EncodeIsAscii(s: seq<byte>)
    ensures forall i :: 0 <= i < |Encode(s)| ==> Encode(s)[i] < 128 as char
    decreases |s|
  {
    hide Char, First, Second, Third, Fourth;
    forall d: digit ensures Char(d) < 128 as char { CharValue(d); }
    if |s| >= 3 {
      EncodeIsAscii(s[3..]);
    }
  }

  lemma RoundTrip(s: seq<byte>)
    ensures Decode(Encode(s)) == Some(s)
  {
    hide Encode, Read;
    EncodeIsAscii(s);
    ReadEncoded(s, 0);
  }

  /** A group is one number: three bytes in base 256 are four digits in base 64, highest first. */
  lemma GroupValue(a: byte, b: byte, c: byte)
    ensures ((First(a) as int * 64 + Second(a, b) as int) * 64 + Third(b, c) as int) * 64 + Fourth(c) as int
      == (a as int * 256 + b as int) * 256 + c as int
  {
  }

  /** Table 2 of RFC 4648: letters, then digits, then `-` and `_`. */
  lemma Alphabet(d: digit)
    ensures d < 26 ==> Char(d) as int == 'A' as int + d as int
    ensures 26 <= d < 52 ==> Char(d) as int == 'a' as int + (d as int - 26)
    ensures 52 <= d < 62 ==> Char(d) as int == '0' as int + (d as int - 52)
    ensures Char(62) == '-' && Char(63) == '_'
  {
  }

  /** The vectors of section 10 of RFC 4648 for "f", "fo" and "foo". */
  lemma Vectors()
    ensures Encode([102]) == "Zg==" && Encode([102, 111]) == "Zm8=" && Encode([102, 111, 111]) == "Zm9v"
  {
    assert Encode([]) == "";
    assert [102 as byte, 111, 111][3..] == [];
  }

  // ------------------------------------------- stripping and restoring padding

  function Strip(t: string): string {
    if t != "" && t[|t| - 1] == '=' then Strip(t[..|t| - 1]) else t
  }

  function Pads(n: nat): string {
    seq(n, _ => '=')
  }

  /** As many `=` as the length lacks to a multiple of four. */
  function Pad(t: string): string {
    t + Pads((4 - |t| % 4) % 4)
  }

  lemma EncodeGroup(s: seq<byte>)
    requires |s| >= 3
    ensures |Encode(s)| == 4 + |Encode(s[3..])| && Encode(s) == Encode(s)[..4] + Encode(s[3..])
    ensures Encode(s)[3] != '='
  {
    hide Char, First, Second, Third;
    CharValue(Fourth(s[2]));
    assert Encode(s)[..4] + Encode(s)[4..] == Encode(s);
    assert Encode(s)[4..] == Encode(s[3..]);
  }

  /** Encoded text is digits followed by at most two padding characters, a multiple of four. */
  lemma {:induction false} EncodedShape(s: seq<byte>) returns (core: string, n: nat)
    ensures Encode(s) == core + Pads(n) && n <= 2 && (|core| + n) % 4 == 0
    ensures core == "" || core[|core| - 1] != '='
    ensures s != [] ==> core != ""
    decreases |s|
  {
    hide Encode;
    if |s| < 3 {
      core, n := ShortShape(s);
    } else {
      EncodeGroup(s);
      var tail;
      tail, n := EncodedShape(s[3..]);
      var head := Encode(s)[..4];
      core := head + tail;
      assert core + Pads(n) == head + (tail + Pads(n));
      assert |core| + n == 4 + (|tail| + n);
      assert core[|core| - 1] == if tail == "" then head[3] else tail[|tail| - 1];
    }
  }

  lemma ShortShape(s: seq<byte>) returns (core: string, n: nat)
    requires |s| < 3
    ensures Encode(s) == core + Pads(n) && n <= 2 && (|core| + n) % 4 == 0
    ensures core == "" || core[|core| - 1] != '='
    ensures s != [] ==> core != ""
  {
    hide Char, First, Second, Third, Fourth;
    if s == [] {
      core, n := "", 0;
    } else if |s| == 1 {
      core, n := [Char(First(s[0])), Char(Second(s[0], 0))], 2;
      CharValue(Second(s[0], 0));
    } else {
      core, n := [Char(First(s[0])), Char(Second(s[0], s[1])), Char(Third(s[1], 0))], 1;
      CharValue(Third(s[1], 0));
    }
  }

  lemma {:induction false} StripPads(core: string, n: nat)
    requires core == "" || core[|core| - 1] != '='
    ensures Strip(core + Pads(n)) == core
  {
    var t := core + Pads(n);
    if n > 0 {
      StripPads(core, n - 1);
      assert t[..|t| - 1] == core + Pads(n - 1);
    } else {
      assert t == core;
    }
  }

  /** Section 3.2 of RFC 4648: the padding can be left off, since the length restores it. */
  lemma PadStrip(s: seq<byte>)
    ensures Pad(Strip(Encode(s))) == Encode(s)
    ensures s != [] ==> Strip(Encode(s)) != ""
  {
    hide Encode, Strip;
    var core, n := EncodedShape(s);
    StripPads(core, n);
    assert (4 - |core| % 4) % 4 == n;
  }
}
