/**
 * The server-sent-events frame parser of the chat client (consumeSseEvents):
 * every carriage return is removed, the text is cut at each blank line
 * ("\n\n"), and each cut event yields the "\n"-join of its `data:` lines.
 * The unterminated tail is handed back to be completed by later chunks.
 */
module Sse {
  import opened Opt

  // ---------------------------------------------------------------------------
  // String built-ins the parser relies on
  // ---------------------------------------------------------------------------

  /** The code points ECMAScript's trimStart and trim remove (WhiteSpace and LineTerminator). */
  predicate IsJsWhitespace(c: char) {
    || c == '\t' || c == '\n' || c == '\U{000B}' || c == '\U{000C}' || c == '\r' || c == ' '
    || c == '\U{00A0}' || c == '\U{1680}' || ('\U{2000}' <= c <= '\U{200A}')
    || c == '\U{2028}' || c == '\U{2029}' || c == '\U{202F}' || c == '\U{205F}'
    || c == '\U{3000}' || c == '\U{FEFF}'
  }

  /** String.prototype.trimStart: drops the whole leading run of whitespace, not just one space. */
  function TrimStart(s: string): (r: string)
    ensures |r| <= |s| && r == s[|s| - |r|..]
    ensures forall i :: 0 <= i < |s| - |r| ==> IsJsWhitespace(s[i])
    ensures r != [] ==> !IsJsWhitespace(r[0])
  {
    if s != [] && IsJsWhitespace(s[0]) then TrimStart(s[1..]) else s
  }

  /** buffer.replace(/\r/g, ""). */
  function RemoveCR(s: string): (r: string)
    ensures |r| <= |s|
  {
    if s == [] then [] else (if s[0] == '\r' then [] else [s[0]]) + RemoveCR(s[1..])
  }

  /** No carriage return survives. */
  lemma {:induction false} RemoveCRClean(s: string)
    ensures '\r' !in RemoveCR(s)
  {
    if s != [] {
      RemoveCRClean(s[1..]);
    }
  }

  lemma {:induction false} RemoveCRAppend(a: string, b: string)
    ensures RemoveCR(a + b) == RemoveCR(a) + RemoveCR(b)
  {
    if a == [] {
      assert a + b == b;
    } else {
      var h := if a[0] == '\r' then [] else [a[0]];
      assert (a + b)[0] == a[0];
      assert (a + b)[1..] == a[1..] + b;
      assert RemoveCR(a + b) == h + RemoveCR(a[1..] + b);
      RemoveCRAppend(a[1..], b);
      assert RemoveCR(a) + RemoveCR(b) == h + (RemoveCR(a[1..]) + RemoveCR(b));
    }
  }

  lemma {:induction false} RemoveCRWithoutCR(s: string)
    requires '\r' !in s
    ensures RemoveCR(s) == s
  {
    if s != [] {
      RemoveCRWithoutCR(s[1..]);
    }
  }

  /** lines.join("\n"); the empty list joins to "". */
  function Join(lines: seq<string>): string {
    if |lines| == 0 then "" else if |lines| == 1 then lines[0] else lines[0] + "\n" + Join(lines[1..])
  }

  /** s.split("\n"): the pieces between the newlines, so always at least one. */
  function Split(s: string): (lines: seq<string>)
    ensures |lines| >= 1
    ensures forall k :: 0 <= k < |lines| ==> '\n' !in lines[k]
    ensures Join(lines) == s
  {
    if s == [] then [""]
    else
      var t := Split(s[1..]);
      if s[0] == '\n' then
        assert ([""] + t)[1..] == t;
        [""] + t
      else
        var l := [[s[0]] + t[0]] + t[1..];
        assert l[1..] == t[1..];
        l
  }

  lemma {:induction false} SplitLine(x: string, r: string)
    requires '\n' !in x
    ensures Split(x) == [x]
    ensures Split(x + "\n" + r) == [x] + Split(r)
  {
    if x != [] {
      assert (x + "\n" + r)[1..] == x[1..] + "\n" + r;
      SplitLine(x[1..], r);
      assert [x[0]] + x[1..] == x;
    } else {
      assert x + "\n" + r == "\n" + r;
      assert ("\n" + r)[1..] == r;
    }
  }

  /** Split is the inverse of Join on newline-free lines. */
  lemma {:induction false} SplitJoin(lines: seq<string>)
    requires |lines| >= 1
    requires forall k :: 0 <= k < |lines| ==> '\n' !in lines[k]
    ensures Split(Join(lines)) == lines
  {
    if |lines| == 1 {
      SplitLine(lines[0], "");
    } else {
      SplitJoin(lines[1..]);
      SplitLine(lines[0], Join(lines[1..]));
      assert [lines[0]] + lines[1..] == lines;
    }
  }

  // ---------------------------------------------------------------------------
  // Cutting the normalized buffer at blank lines
  // ---------------------------------------------------------------------------

  /** A blank-line boundary "\n\n" starts at position i of s. */
  predicate BoundaryAt(s: string, i: int) {
    0 <= i < |s| - 1 && s[i] == '\n' && s[i + 1] == '\n'
  }

  /** No blank-line boundary occurs in s. */
  predicate NoBoundary(s: string) {
    forall i | 0 <= i < |s| - 1 :: !BoundaryAt(s, i)
  }

  lemma ShiftBoundary(s: string)
    requires s != []
    ensures forall i :: 1 <= i ==> (BoundaryAt(s, i) <==> BoundaryAt(s[1..], i - 1))
    ensures forall i :: BoundaryAt(s[1..], i) ==> BoundaryAt(s, i + 1)
  {
  }

  /** normalized.indexOf("\n\n"): the position of the first boundary, or -1. */
  function IndexOfBoundary(s: string): (r: int)
    ensures r == -1 || BoundaryAt(s, r)
  {
    if |s| < 2 then -1
    else if s[0] == '\n' && s[1] == '\n' then 0
    else
      var j := IndexOfBoundary(s[1..]);
      if j == -1 then -1 else assert s[1..][j] == s[j + 1]; j + 1
  }

  /** indexOf finds a boundary exactly when there is one, and finds the first. */
  lemma {:induction false} IndexOfBoundarySpec(s: string)
    ensures IndexOfBoundary(s) == -1 <==> NoBoundary(s)
    ensures IndexOfBoundary(s) != -1 ==> NoBoundary(s[..IndexOfBoundary(s) + 1])
  {
    if |s| >= 2 && !(s[0] == '\n' && s[1] == '\n') {
      var j := IndexOfBoundary(s[1..]);
      IndexOfBoundarySpec(s[1..]);
      ShiftBoundary(s);
      if j != -1 {
        var p := s[..j + 2];
        ShiftBoundary(p);
        assert p[1..] == s[1..][..j + 1];
      }
    } else if |s| >= 2 {
      assert BoundaryAt(s, 0);
    }
  }

  lemma IndexOfBoundaryFirst(s: string, i: int)
    requires BoundaryAt(s, i)
    requires NoBoundary(s[..i + 1])
    ensures IndexOfBoundary(s) == i
  {
    var r := IndexOfBoundary(s);
    IndexOfBoundarySpec(s);
    if r < i {
      assert BoundaryAt(s[..i + 1], r);
    } else if r > i {
      assert BoundaryAt(s[..r + 1], i);
    }
  }

  /** Cut raw events written back, each followed by its terminating blank line. */
  function Glue(raws: seq<string>): string {
    if raws == [] then "" else raws[0] + "\n\n" + Glue(raws[1..])
  }

  lemma {:induction false} GlueAppend(a: seq<string>, b: seq<string>)
    ensures Glue(a + b) == Glue(a) + Glue(b)
  {
    if a == [] {
      assert a + b == b;
    } else {
      assert (a + b)[1..] == a[1..] + b;
      GlueAppend(a[1..], b);
    }
  }

  /**
   * A raw event as the first-boundary cut leaves it: it holds no blank line
   * and does not end in "\n" (else the boundary would have come earlier).
   */
  predicate IsRawEvent(raw: string) {
    NoBoundary(raw + "\n")
  }

  /** Every element of the list is a raw event. */
  predicate RawEvents(raws: seq<string>) {
    raws == [] || (IsRawEvent(raws[0]) && RawEvents(raws[1..]))
  }

  lemma {:induction false} RawEventsAppend(a: seq<string>, b: seq<string>)
    requires RawEvents(a) && RawEvents(b)
    ensures RawEvents(a + b)
  {
    if a != [] {
      assert (a + b)[1..] == a[1..] + b;
      RawEventsAppend(a[1..], b);
    } else {
      assert a + b == b;
    }
  }

  datatype Cut = Cut(raws: seq<string>, rest: string)

  /** The cutting loop of consumeSseEvents on an already normalized buffer. */
  function Frames(s: string): (c: Cut)
    ensures |c.rest| <= |s|
    decreases |s|
  {
    var i := IndexOfBoundary(s);
    if i == -1 then
      Cut([], s)
    else
      var t := Frames(s[i + 2..]);
      Cut([s[..i]] + t.raws, t.rest)
  }

  /**
   * What the cutting loop guarantees: the buffer is the concatenation of the
   * raw events, each with its "\n\n", then a remainder that holds no boundary.
   */
  lemma FramesSpec(s: string)
    ensures s == Glue(Frames(s).raws) + Frames(s).rest
    ensures NoBoundary(Frames(s).rest)
    ensures RawEvents(Frames(s).raws)
  {
    FramesGlue(s);
    FramesRest(s);
    FramesRaw(s);
  }

  lemma {:induction false} FramesGlue(s: string)
    ensures s == Glue(Frames(s).raws) + Frames(s).rest
    decreases |s|
  {
    var i := IndexOfBoundary(s);
    if i != -1 {
      var tail := s[i + 2..];
      FirstCut(s, i);
      FramesGlue(tail);
      var raws := [s[..i]] + Frames(tail).raws;
      assert Frames(s) == Cut(raws, Frames(tail).rest);
      assert raws[1..] == Frames(tail).raws;
    }
  }

  lemma {:induction false} FramesRest(s: string)
    ensures NoBoundary(Frames(s).rest)
    decreases |s|
  {
    var i := IndexOfBoundary(s);
    IndexOfBoundarySpec(s);
    if i != -1 {
      FramesRest(s[i + 2..]);
    }
  }

  lemma {:induction false} FramesRaw(s: string)
    ensures RawEvents(Frames(s).raws)
    decreases |s|
  {
    var i := IndexOfBoundary(s);
    if i != -1 {
      var tail := s[i + 2..];
      FirstCut(s, i);
      FramesRaw(tail);
      var raws := [s[..i]] + Frames(tail).raws;
      assert raws[1..] == Frames(tail).raws;
    }
  }

  /** The text before the first boundary is a raw event. */
  lemma FirstCut(s: string, i: int)
    requires i == IndexOfBoundary(s) && i != -1
    ensures IsRawEvent(s[..i])
    ensures s == s[..i] + "\n\n" + s[i + 2..]
  {
    IndexOfBoundarySpec(s);
    assert s[..i] + "\n" == s[..i + 1];
  }

  /** The three properties of Frames determine its result. */
  lemma {:induction false} FramesUnique(s: string, raws: seq<string>, rest: string)
    requires s == Glue(raws) + rest
    requires NoBoundary(rest)
    requires RawEvents(raws)
    ensures Frames(s) == Cut(raws, rest)
    decreases raws
  {
    if raws == [] {
      assert s == rest;
    } else {
      var r0 := raws[0];
      var tail := Glue(raws[1..]) + rest;
      assert s == r0 + "\n\n" + tail;
      FramesAfterRaw(r0, tail);
      FramesUnique(tail, raws[1..], rest);
      assert [r0] + raws[1..] == raws;
    }
  }

  /** A raw event followed by its blank line is cut exactly there. */
  lemma FramesAfterRaw(r0: string, tail: string)
    requires IsRawEvent(r0)
    ensures Frames(r0 + "\n\n" + tail) == Cut([r0] + Frames(tail).raws, Frames(tail).rest)
  {
    var s := r0 + "\n\n" + tail;
    var i := |r0|;
    assert s[..i + 1] == r0 + "\n";
    assert BoundaryAt(s, i);
    IndexOfBoundaryFirst(s, i);
    assert s[..i] == r0;
    assert s[i + 2..] == tail;
    FramesCut(s, i);
  }

  /** Cutting a concatenation equals cutting the first part, then its remainder followed by the second part. */
  lemma FramesConcat(s1: string, s2: string)
    ensures var c1 := Frames(s1);
            var c2 := Frames(c1.rest + s2);
            Frames(s1 + s2) == Cut(c1.raws + c2.raws, c2.rest)
  {
    var c1 := Frames(s1);
    var m := c1.rest + s2;
    var c2 := Frames(m);
    FramesGlue(s1);
    FramesGlue(m);
    FramesRest(m);
    FramesRaw(s1);
    FramesRaw(m);
    GlueConcat(s1, s2, c1.raws, c1.rest, c2.raws, c2.rest);
    RawEventsAppend(c1.raws, c2.raws);
    FramesUnique(s1 + s2, c1.raws + c2.raws, c2.rest);
  }

  lemma GlueConcat(s1: string, s2: string, g1: seq<string>, r1: string, g2: seq<string>, r2: string)
    requires s1 == Glue(g1) + r1 && r1 + s2 == Glue(g2) + r2
    ensures s1 + s2 == Glue(g1 + g2) + r2
  {
    GlueAppend(g1, g2);
    assert s1 + s2 == Glue(g1) + (r1 + s2);
  }

  // ---------------------------------------------------------------------------
  // Payload of one raw event
  // ---------------------------------------------------------------------------

  const DataPrefix: string := "data:"

  /** line.startsWith("data:") */
  predicate IsDataLine(line: string) {
    |line| >= |DataPrefix| && line[..|DataPrefix|] == DataPrefix
  }

  /** line.slice("data:".length).trimStart() */
  function DataValue(line: string): string
    requires IsDataLine(line)
  {
    TrimStart(line[|DataPrefix|..])
  }

  /** What one line contributes: its value when it is a data line, nothing otherwise. */
  function LineValue(line: string): (v: seq<string>)
    ensures |v| <= 1 && (v != [] <==> IsDataLine(line))
    ensures v != [] ==> v[0] == [] || !IsJsWhitespace(v[0][0])
  {
    if IsDataLine(line) then [DataValue(line)] else []
  }

  /**
   * The inner loop over one raw event's lines: the value of each `data:` line,
   * in line order; other lines are ignored.
   */
  function DataLines(lines: seq<string>): (values: seq<string>)
    ensures |values| <= |lines|
  {
    if lines == [] then [] else LineValue(lines[0]) + DataLines(lines[1..])
  }

  /** Some line of the event is a data line. */
  predicate HasDataLine(lines: seq<string>) {
    exists k :: 0 <= k < |lines| && IsDataLine(lines[k])
  }

  /** An event yields no data exactly when none of its lines is a data line. */
  lemma {:induction false} DataLinesEmpty(lines: seq<string>)
    ensures DataLines(lines) == [] <==> !HasDataLine(lines)
  {
    if lines != [] {
      DataLinesEmpty(lines[1..]);
      if HasDataLine(lines[1..]) {
        var k :| 0 <= k < |lines[1..]| && IsDataLine(lines[1..][k]);
        assert IsDataLine(lines[k + 1]);
      }
      if HasDataLine(lines) && !IsDataLine(lines[0]) {
        var k :| 0 <= k < |lines| && IsDataLine(lines[k]);
        assert lines[1..][k - 1] == lines[k];
      }
    }
  }

  /** The value of every data line has had its whole leading whitespace run removed. */
  lemma {:induction false} DataLinesTrimmed(lines: seq<string>)
    ensures forall k :: 0 <= k < |DataLines(lines)| ==>
              DataLines(lines)[k] == [] || !IsJsWhitespace(DataLines(lines)[k][0])
  {
    if lines != [] {
      DataLinesTrimmed(lines[1..]);
      var v, rest := LineValue(lines[0]), DataLines(lines[1..]);
      assert DataLines(lines) == v + rest;
      assert forall k :: |v| <= k < |v + rest| ==> (v + rest)[k] == rest[k - |v|];
    }
  }

  lemma {:induction false} DataLinesAppend(a: seq<string>, b: seq<string>)
    ensures DataLines(a + b) == DataLines(a) + DataLines(b)
  {
    if a == [] {
      assert a + b == b;
    } else {
      assert (a + b)[1..] == a[1..] + b;
      assert (a + b)[0] == a[0];
      DataLinesAppend(a[1..], b);
      assert DataLines(a + b) == LineValue(a[0]) + DataLines(a[1..] + b);
    }
  }

  /** A single line contributes just its own value. */
  lemma DataLinesSingle(line: string)
    ensures DataLines([line]) == LineValue(line)
  {
    assert [line][1..] == [];
  }

  /** The data lines of one more line of the event. */
  lemma DataLinesNext(pre: seq<string>, line: string)
    ensures DataLines(pre + [line]) == DataLines(pre) + LineValue(line)
  {
    DataLinesAppend(pre, [line]);
    DataLinesSingle(line);
  }

  /** The payload of one raw event, or None when it has no data line (the event is dropped). */
  function EventData(raw: string): (d: Option<string>)
    ensures d.None? <==> !HasDataLine(Split(raw))
  {
    var lines := Split(raw);
    var values := DataLines(lines);
    DataLinesEmpty(lines);
    if values == [] then None else Some(Join(values))
  }

  /** The payloads of a list of raw events, dropping those without data. */
  function Payloads(raws: seq<string>): (events: seq<string>)
    ensures |events| <= |raws|
  {
    if raws == [] then [] else EventPayload(raws[0]) + Payloads(raws[1..])
  }

  /** One raw event's contribution to the payload list. */
  function EventPayload(raw: string): (v: seq<string>)
    ensures |v| <= 1 && (v == [] <==> EventData(raw).None?)
  {
    match EventData(raw) case Some(p) => [p] case None => []
  }

  lemma {:induction false} PayloadsAppend(a: seq<string>, b: seq<string>)
    ensures Payloads(a + b) == Payloads(a) + Payloads(b)
  {
    if a == [] {
      assert a + b == b;
    } else {
      assert (a + b)[1..] == a[1..] + b;
      assert (a + b)[0] == a[0];
      PayloadsAppend(a[1..], b);
      assert Payloads(a + b) == EventPayload(a[0]) + Payloads(a[1..] + b);
    }
  }

  // ---------------------------------------------------------------------------
  // consumeSseEvents
  // ---------------------------------------------------------------------------

  /** The result of consumeSseEvents: complete event payloads and the unterminated remainder. */
  datatype Parsed = Parsed(events: seq<string>, buffer: string)

  /** What consumeSseEvents computes, as a function of its whole input. */
  function Consume(buffer: string): (p: Parsed)
    ensures '\r' !in p.buffer && NoBoundary(p.buffer)
    ensures |p.buffer| <= |buffer|
  {
    var n := RemoveCR(buffer);
    RemoveCRClean(buffer);
    var c := Frames(n);
    FramesSpec(n);
    assert '\r' in c.rest ==> '\r' in n;
    Parsed(Payloads(c.raws), c.rest)
  }

  /**
   * Feeding the parser in two steps, the second one on the first one's
   * remainder followed by the new text, yields the same events and remainder
   * as one call on the whole text: split points do not matter.
   */
  lemma ConsumeIncremental(b1: string, b2: string)
    ensures var p1 := Consume(b1);
            var p2 := Consume(p1.buffer + b2);
            Consume(b1 + b2) == Parsed(p1.events + p2.events, p2.buffer)
  {
    var n1 := RemoveCR(b1);
    RemoveCRClean(b1);
    var c1 := Frames(n1);
    FramesSpec(n1);
    assert '\r' in c1.rest ==> '\r' in n1;
    RemoveCRAppend(b1, b2);
    RemoveCRAppend(c1.rest, b2);
    RemoveCRWithoutCR(c1.rest);
    FramesConcat(n1, RemoveCR(b2));
    PayloadsAppend(c1.raws, Frames(c1.rest + RemoveCR(b2)).raws);
  }

  /** The `for (const line of lines)` loop of consumeSseEvents. */
  method CollectDataLines(lines: seq<string>) returns (dataLines: seq<string>)
    ensures dataLines == DataLines(lines)
  {
    dataLines := [];
    for k := 0 to |lines|
      invariant dataLines == DataLines(lines[..k])
    {
      assert lines[..k + 1] == lines[..k] + [lines[k]];
      DataLinesNext(lines[..k], lines[k]);
      if IsDataLine(lines[k]) {
        dataLines := dataLines + [DataValue(lines[k])];
      }
    }
    assert lines[..|lines|] == lines;
  }

  /** One turn of the cutting loop: the first raw event is cut off and the rest is cut further. */
  lemma FramesStep(whole: string, raws: seq<string>, s: string, i: int)
    requires i == IndexOfBoundary(s) && i != -1
    requires Frames(whole) == Cut(raws + Frames(s).raws, Frames(s).rest)
    ensures Frames(whole) == Cut((raws + [s[..i]]) + Frames(s[i + 2..]).raws, Frames(s[i + 2..]).rest)
  {
    var t := Frames(s[i + 2..]);
    FramesCut(s, i);
    assert raws + ([s[..i]] + t.raws) == (raws + [s[..i]]) + t.raws;
  }

  /** Frames unfolded once at a boundary. */
  lemma FramesCut(s: string, i: int)
    requires i == IndexOfBoundary(s) && i != -1
    ensures Frames(s) == Cut([s[..i]] + Frames(s[i + 2..]).raws, Frames(s[i + 2..]).rest)
  {
  }

  lemma PayloadsStep(raws: seq<string>, raw: string, a: seq<string>, b: seq<string>)
    requires a == Payloads(raws)
    requires b == if DataLines(Split(raw)) == [] then a else a + [Join(DataLines(Split(raw)))]
    ensures b == Payloads(raws + [raw])
  {
    PayloadsAppend(raws, [raw]);
    assert [raw][1..] == [];
  }

  /** consumeSseEvents, with its cutting loop and its inner loop over the lines of each event. */
  method ConsumeSseEvents(buffer: string) returns (p: Parsed)
    ensures p == Consume(buffer)
  {
    var normalized := RemoveCR(buffer);
    ghost var whole := normalized;
    var events: seq<string> := [];
    ghost var raws: seq<string> := [];
    var eventEndIndex := IndexOfBoundary(normalized);
    while eventEndIndex != -1
      invariant eventEndIndex == IndexOfBoundary(normalized)
      invariant Frames(whole) == Cut(raws + Frames(normalized).raws, Frames(normalized).rest)
      invariant events == Payloads(raws)
      decreases |normalized|
    {
      var rawEvent := normalized[..eventEndIndex];
      FramesStep(whole, raws, normalized, eventEndIndex);
      normalized := normalized[eventEndIndex + 2..];
      var lines := Split(rawEvent);
      var dataLines := CollectDataLines(lines);
      ghost var before := events;
      if |dataLines| > 0 {
        events := events + [Join(dataLines)];
      }
      PayloadsStep(raws, rawEvent, before, events);
      raws := raws + [rawEvent];
      eventEndIndex := IndexOfBoundary(normalized);
    }
    assert Frames(normalized) == Cut([], normalized);
    assert raws + [] == raws;
    p := Parsed(events, normalized);
  }
}
