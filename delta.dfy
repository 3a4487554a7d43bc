/**
 * The delta extractor and the read loop of streamResponse: every chunk is
 * appended to the buffer, the buffer goes through the frame parser, each
 * payload is probed for a text increment, and "[DONE]" ends the current
 * batch and clears the buffer (but not the read loop).
 */
module Delta {
  import Sse

  /**
   * A probed JSON property, by JavaScript truthiness. A truthy value carries
   * the text that `fullResponseText += content` appends (its string form).
   */
  datatype Field = Falsy | Truthy(text: string)

  /**
   * JSON.parse(data) followed by the probes `jsonData.response` and
   * `jsonData.choices?.[0]?.delta?.content`. Invalid stands for a payload
   * whose parse throws, and for `null`, whose property access throws; both
   * exceptions are swallowed by processBuffer.
   */
  datatype Decoded = Invalid | Value(response: Field, deltaContent: Field)

  /** JSON decoding is a collaborator: the model takes it as a parameter. */
  type Decoder = string -> Decoded

  const DoneSentinel: string := "[DONE]"

  /** The text one payload adds: a truthy `response` wins, then a truthy delta content, else nothing. */
  function Increment(d: Decoded): string {
    match d
    case Invalid => ""
    case Value(response, delta) =>
      if response.Truthy? then response.text else if delta.Truthy? then delta.text else ""
  }

  /** The in-order concatenation of the increments of the given payloads. */
  function Increments(events: seq<string>, decode: Decoder): string {
    if events == [] then "" else Increment(decode(events[0])) + Increments(events[1..], decode)
  }

  lemma {:induction false} IncrementsAppend(a: seq<string>, b: seq<string>, decode: Decoder)
    ensures Increments(a + b, decode) == Increments(a, decode) + Increments(b, decode)
  {
    if a == [] {
      assert a + b == b;
    } else {
      assert (a + b)[1..] == a[1..] + b;
      assert (a + b)[0] == a[0];
      IncrementsAppend(a[1..], b, decode);
    }
  }

  /** The payloads processBuffer handles before it returns: those before the first "[DONE]". */
  function UntilDone(events: seq<string>): (r: seq<string>)
    ensures r <= events
    ensures DoneSentinel !in r
    ensures |r| < |events| ==> events[|r|] == DoneSentinel
  {
    if events == [] || events[0] == DoneSentinel then [] else [events[0]] + UntilDone(events[1..])
  }

  lemma UntilDoneAt(events: seq<string>, k: int)
    requires 0 <= k < |events| && events[k] == DoneSentinel
    requires DoneSentinel !in events[..k]
    ensures UntilDone(events) == events[..k]
  {
  }

  lemma UntilDoneAll(events: seq<string>)
    requires DoneSentinel !in events
    ensures UntilDone(events) == events
  {
  }

  /** The result of processBuffer: the buffer it hands back, the text it appended, and whether it met "[DONE]". */
  datatype Step = Step(buffer: string, text: string, done: bool)

  /** What processBuffer does with one input: increments up to "[DONE]", and an emptied buffer after it. */
  function Process(input: string, decode: Decoder): (st: Step)
  {
    var p := Sse.Consume(input);
    var handled := UntilDone(p.events);
    var done := |handled| < |p.events|;
    Step(if done then "" else p.buffer, Increments(handled, decode), done)
  }

  /**
   * The `for (const data of parsed.events)` loop of processBuffer: appends the
   * increments of the payloads before the first "[DONE]" and says whether it met one.
   */
  method ApplyEvents(events: seq<string>, decode: Decoder, text: string)
    returns (done: bool, fullResponseText: string)
    ensures done <==> DoneSentinel in events
    ensures fullResponseText == text + Increments(UntilDone(events), decode)
  {
    fullResponseText := text;
    for k := 0 to |events|
      invariant DoneSentinel !in events[..k]
      invariant fullResponseText == text + Increments(events[..k], decode)
    {
      if events[k] == DoneSentinel {
        UntilDoneAt(events, k);
        return true, fullResponseText;
      }
      var content := Increment(decode(events[k]));
      if content != "" {
        fullResponseText := fullResponseText + content;
      }
      IncrementsAppend(events[..k], [events[k]], decode);
      assert [events[k]][1..] == [];
      assert events[..k + 1] == events[..k] + [events[k]];
    }
    assert events[..|events|] == events;
    UntilDoneAll(events);
    done := false;
  }

  /** processBuffer: fullResponseText is passed in and handed back. */
  method ProcessBuffer(inputBuffer: string, decode: Decoder, text: string)
    returns (buffer: string, fullResponseText: string)
    ensures buffer == Process(inputBuffer, decode).buffer
    ensures fullResponseText == text + Process(inputBuffer, decode).text
  {
    var parsed := Sse.ConsumeSseEvents(inputBuffer);
    var done;
    done, fullResponseText := ApplyEvents(parsed.events, decode, text);
    buffer := if done then "" else parsed.buffer;
  }

  /** The stream decoded so far, as the concatenation of its chunks. */
  function Concat(chunks: seq<string>): string {
    if chunks == [] then "" else Concat(chunks[..|chunks| - 1]) + chunks[|chunks| - 1]
  }

  /** The read loop's state: its buffer and fullResponseText. */
  datatype Progress = Progress(buffer: string, text: string)

  /** The read loop's state after the first n chunks. */
  function Pump(chunks: seq<string>, n: nat, decode: Decoder): Progress
    requires n <= |chunks|
  {
    if n == 0 then
      Progress("", "")
    else
      var s := Pump(chunks, n - 1, decode);
      var st := Process(s.buffer + chunks[n - 1], decode);
      Progress(st.buffer, s.text + st.text)
  }

  /**
   * The final fullResponseText of one stream: at end of input the buffer is
   * flushed with an extra "\n\n" and whatever that call hands back is dropped.
   */
  function StreamText(chunks: seq<string>, decode: Decoder): string {
    var s := Pump(chunks, |chunks|, decode);
    s.text + Process(s.buffer + "\n\n", decode).text
  }

  /** One turn of the read loop: the chunk is appended to the buffer, which then goes through processBuffer. */
  method ReadChunk(chunks: seq<string>, i: nat, decode: Decoder, buffer: string, text: string)
    returns (buffer': string, fullResponseText: string)
    requires i < |chunks|
    requires Progress(buffer, text) == Pump(chunks, i, decode)
    ensures Progress(buffer', fullResponseText) == Pump(chunks, i + 1, decode)
  {
    buffer', fullResponseText := ProcessBuffer(buffer + chunks[i], decode, text);
  }

  /** The read loop of streamResponse over the already decoded chunks. */
  method ReadStream(chunks: seq<string>, decode: Decoder) returns (fullResponseText: string)
    ensures fullResponseText == StreamText(chunks, decode)
  {
    fullResponseText := "";
    var buffer := "";
    var i := 0;
    while i < |chunks|
      invariant 0 <= i <= |chunks|
      invariant Progress(buffer, fullResponseText) == Pump(chunks, i, decode)
    {
      buffer, fullResponseText := ReadChunk(chunks, i, decode, buffer, fullResponseText);
      i := i + 1;
    }
    var _, flushed := ProcessBuffer(buffer + "\n\n", decode, fullResponseText);
    fullResponseText := flushed;
  }

  /**
   * Without a "[DONE]", where the network splits the stream does not matter:
   * after n chunks the loop holds exactly what one parser call on the first n
   * chunks leaves over, and the increments of every event that call yields.
   */
  lemma {:induction false} PumpWhole(chunks: seq<string>, n: nat, decode: Decoder)
    requires n <= |chunks|
    requires DoneSentinel !in Sse.Consume(Concat(chunks[..n])).events
    ensures var p := Sse.Consume(Concat(chunks[..n]));
            Pump(chunks, n, decode) == Progress(p.buffer, Increments(p.events, decode))
  {
    if n == 0 {
      assert chunks[..0] == [];
      assert Sse.Consume("") == Sse.Parsed([], "");
    } else {
      var before := Concat(chunks[..n - 1]);
      assert chunks[..n][..n - 1] == chunks[..n - 1];
      assert Concat(chunks[..n]) == before + chunks[n - 1];
      Sse.ConsumeIncremental(before, chunks[n - 1]);
      var p1 := Sse.Consume(before);
      var p2 := Sse.Consume(p1.buffer + chunks[n - 1]);
      assert DoneSentinel !in p1.events && DoneSentinel !in p2.events;
      PumpWhole(chunks, n - 1, decode);
      UntilDoneAll(p2.events);
      IncrementsAppend(p1.events, p2.events, decode);
    }
  }

  /** The frame-reassembly property of a whole stream that carries no "[DONE]". */
  lemma StreamWhole(chunks: seq<string>, decode: Decoder)
    requires DoneSentinel !in Sse.Consume(Concat(chunks) + "\n\n").events
    ensures StreamText(chunks, decode) == Increments(Sse.Consume(Concat(chunks) + "\n\n").events, decode)
  {
    var whole := Concat(chunks);
    assert chunks[..|chunks|] == chunks;
    Sse.ConsumeIncremental(whole, "\n\n");
    var p1 := Sse.Consume(whole);
    var p2 := Sse.Consume(p1.buffer + "\n\n");
    assert DoneSentinel !in p1.events && DoneSentinel !in p2.events;
    PumpWhole(chunks, |chunks|, decode);
    UntilDoneAll(p2.events);
    IncrementsAppend(p1.events, p2.events, decode);
  }
}
