/**
 * The audit capture wrapper `logReqRes`: it replaces a response's `write` and
 * `end` so that every chunk is also pushed onto a buffer, forwards each call
 * unchanged, and at `end` logs the concatenated buffer as the response body.
 */
module Audit {
  import opened Wrappers

  type Byte = b: int | 0 <= b < 256

  /** A data argument of `write`/`end`: a string (held as its UTF-8 bytes) or a Buffer. */
  datatype Chunk = Text(utf8: seq<Byte>) | Binary(bytes: seq<Byte>)

  /** `Buffer.from(chunk)`: a Buffer's own bytes, a string's UTF-8 bytes. */
  function Bytes(c: Chunk): (b: seq<Byte>)
    ensures c.Binary? ==> b == c.bytes
    ensures c.Text? ==> b == c.utf8
  {
    match c
    case Text(b) => b
    case Binary(b) => b
  }

  /** JavaScript truthiness of `restArgs[0]` in `end`: no argument and the empty string are falsy, a Buffer never is. */
  predicate Truthy(data: Option<Chunk>): (b: bool)
    ensures data.None? ==> !b
    ensures data.Some? && data.value.Binary? ==> b
    ensures data.Some? && data.value.Text? ==> (b <==> data.value.utf8 != [])
    ensures !b ==> data.None? || Bytes(data.value) == []
  {
    data.Some? && (data.value.Binary? || data.value.utf8 != [])
  }

  /** A call on the response. */
  datatype Call = WriteCall(chunk: Chunk) | EndCall(data: Option<Chunk>)

  /** The bytes one call puts on the wire: `end(data)` writes its data, if any, before finishing. */
  function CallBytes(c: Call): seq<Byte> {
    match c
    case WriteCall(chunk) => Bytes(chunk)
    case EndCall(data) => if data.Some? then Bytes(data.value) else []
  }

  /** The data bytes handed to the original `write`/`end` by a sequence of calls. */
  function Delivered(calls: seq<Call>): seq<Byte> {
    if calls == [] then [] else Delivered(calls[..|calls| - 1]) + CallBytes(calls[|calls| - 1])
  }

  /** The buffers the wrapper pushes for one call. */
  function Pushed(c: Call): seq<seq<Byte>> {
    match c
    case WriteCall(chunk) => [Bytes(chunk)]
    case EndCall(data) => if Truthy(data) then [Bytes(data.value)] else []
  }

  /** The `chunks` array after a sequence of calls through the wrapper. */
  function CapturedChunks(calls: seq<Call>): seq<seq<Byte>> {
    if calls == [] then [] else CapturedChunks(calls[..|calls| - 1]) + Pushed(calls[|calls| - 1])
  }

  /** The sum of the chunks' lengths. */
  function TotalLength(chunks: seq<seq<Byte>>): nat {
    if chunks == [] then 0 else |chunks[0]| + TotalLength(chunks[1..])
  }

  lemma {:induction false} TotalLengthAppend(chunks: seq<seq<Byte>>, c: seq<Byte>)
    ensures TotalLength(chunks + [c]) == TotalLength(chunks) + |c|
  {
    if chunks != [] {
      assert (chunks + [c])[1..] == chunks[1..] + [c];
      TotalLengthAppend(chunks[1..], c);
    }
  }

  /** `Buffer.concat(chunks)`: as long as all chunks together, and starting with the first. */
  function Concat(chunks: seq<seq<Byte>>): (r: seq<Byte>)
    ensures |r| == TotalLength(chunks)
    ensures chunks != [] ==> chunks[0] <= r
  {
    if chunks == [] then []
    else
      var init, last := chunks[..|chunks| - 1], chunks[|chunks| - 1];
      TotalLengthAppend(init, last);
      assert chunks == init + [last];
      Concat(init) + last
  }

  lemma {:induction false} ConcatAppend(xs: seq<seq<Byte>>, ys: seq<seq<Byte>>)
    ensures Concat(xs + ys) == Concat(xs) + Concat(ys)
    decreases |ys|
  {
    if ys == [] {
      assert xs + ys == xs;
    } else {
      var init := ys[..|ys| - 1];
      assert (xs + ys)[..|xs + ys| - 1] == xs + init;
      ConcatAppend(xs, init);
    }
  }

  /**
   * The captured body is exactly the data bytes handed to the original
   * `write`/`end`: the skipped falsy
   * `end` arguments carry no bytes, and every other chunk is kept in order.
   */
  lemma {:induction false} CaptureFaithful(calls: seq<Call>)
    ensures Concat(CapturedChunks(calls)) == Delivered(calls)
    decreases |calls|
  {
    if calls != [] {
      var init := calls[..|calls| - 1];
      var last := calls[|calls| - 1];
      CaptureFaithful(init);
      ConcatAppend(CapturedChunks(init), Pushed(last));
      match last
      case WriteCall(chunk) =>
        assert Concat([Bytes(chunk)]) == [] + Bytes(chunk);
      case EndCall(data) =>
        if Truthy(data) {
          assert Concat([Bytes(data.value)]) == [] + Bytes(data.value);
        }
    }
  }

  /** The fields of the log record that the model keeps. */
  datatype LogRecord = LogRecord(number: Option<nat>, httpMethod: string, originalUri: string, responseData: seq<Byte>)

  /** What the wrapper does, in order: forward a call to the original response, or hand a record to the logger. */
  datatype Event = Forwarded(call: Call) | Logged(record: LogRecord)

  /** The calls that reached the original response, in order. */
  function ForwardedCalls(events: seq<Event>): seq<Call> {
    if events == [] then []
    else
      var last := events[|events| - 1];
      ForwardedCalls(events[..|events| - 1]) + if last.Forwarded? then [last.call] else []
  }

  /** Forwarding one call extends the forwarded calls by it; logging leaves them alone. */
  lemma ForwardedAfter(events: seq<Event>, e: Event)
    ensures ForwardedCalls(events + [e]) == ForwardedCalls(events) + if e.Forwarded? then [e.call] else []
  {
    assert (events + [e])[..|events|] == events;
  }

  /** One more call through the wrapper pushes exactly that call's buffers. */
  lemma CapturedAfter(calls: seq<Call>, c: Call)
    ensures CapturedChunks(calls + [c]) == CapturedChunks(calls) + Pushed(c)
    ensures Delivered(calls + [c]) == Delivered(calls) + CallBytes(c)
  {
    assert (calls + [c])[..|calls|] == calls;
  }

  /** Logging a record and then forwarding a call extends the forwarded calls by that call alone. */
  lemma LogThenForward(events: seq<Event>, record: LogRecord, c: Call)
    ensures ForwardedCalls(events + [Logged(record), Forwarded(c)]) == ForwardedCalls(events) + [c]
  {
    ForwardedAfter(events, Logged(record));
    ForwardedAfter(events + [Logged(record)], Forwarded(c));
    assert events + [Logged(record), Forwarded(c)] == events + [Logged(record)] + [Forwarded(c)];
  }

  /** What `end` pushes completes the capture, and its concatenation is everything delivered. */
  lemma EndStep(events: seq<Event>, data: Option<Chunk>)
    ensures var calls := ForwardedCalls(events) + [EndCall(data)];
            && CapturedChunks(calls) == CapturedChunks(ForwardedCalls(events)) + (if Truthy(data) then [Bytes(data.value)] else [])
            && Concat(CapturedChunks(calls)) == Delivered(calls)
  {
    var calls := ForwardedCalls(events) + [EndCall(data)];
    CapturedAfter(ForwardedCalls(events), EndCall(data));
    CaptureFaithful(calls);
  }

  /** A response wrapped by `logReqRes` for one request. */
  class AuditCapture {
    const number: Option<nat>
    const httpMethod: string
    const originalUri: string
    var chunks: seq<seq<Byte>>
    var events: seq<Event>

    /** The buffer holds what the wrapper pushed for every call forwarded so far. */
    ghost predicate Valid()
      reads this
    {
      chunks == CapturedChunks(ForwardedCalls(events))
    }

    /** Installing the wrapper: an empty buffer, nothing forwarded or logged yet. */
    constructor (number: Option<nat>, httpMethod: string, originalUri: string)
      ensures Valid() && chunks == [] && events == []
      ensures this.number == number && this.httpMethod == httpMethod && this.originalUri == originalUri
    {
      this.number := number;
      this.httpMethod := httpMethod;
      this.originalUri := originalUri;
      chunks := [];
      events := [];
    }

    /** The replaced `res.write`: push the chunk, then forward the call unchanged. */
    method Write(chunk: Chunk)
      requires Valid()
      modifies this
      ensures Valid()
      ensures chunks == old(chunks) + [Bytes(chunk)]
      ensures events == old(events) + [Forwarded(WriteCall(chunk))]
    {
      ForwardedAfter(events, Forwarded(WriteCall(chunk)));
      CapturedAfter(ForwardedCalls(events), WriteCall(chunk));
      chunks := chunks + [Bytes(chunk)];
      events := events + [Forwarded(WriteCall(chunk))];
    }

    /**
     * The replaced `res.end`: push a truthy data argument, log the record
     * whose body is all data handed to the original `write`/`end` including this call,
     * and only then forward the call unchanged.
     */
    method End(data: Option<Chunk>)
      requires Valid()
      modifies this
      ensures Valid()
      ensures chunks == old(chunks) + if Truthy(data) then [Bytes(data.value)] else []
      ensures |Delivered(ForwardedCalls(old(events)) + [EndCall(data)])| == TotalLength(chunks)
      ensures events == old(events) + [
                Logged(LogRecord(number, httpMethod, originalUri, Delivered(ForwardedCalls(old(events)) + [EndCall(data)]))),
                Forwarded(EndCall(data))]
    {
      ghost var before := events;
      EndStep(before, data);
      if Truthy(data) {
        chunks := chunks + [Bytes(data.value)];
      }
      var body := Concat(chunks);
      var record := LogRecord(number, httpMethod, originalUri, body);
      LogThenForward(before, record, EndCall(data));
      events := events + [Logged(record), Forwarded(EndCall(data))];
    }
  }
}
