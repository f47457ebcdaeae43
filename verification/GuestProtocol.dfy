/** The JSON-lines framing between the node agent and the guest
    (src/guest-protocol.ts). JSON itself is a parameter: a writer whose texts
    contain no newline, and a parser that reads them back. */
module GuestProtocol {
  import opened Basics

  const MAX_GUEST_FRAME_BYTES := 384 * 1024
  const NEWLINE: byte := 0x0a

  datatype FrameError = BufferTooLarge | FrameTooLarge | InvalidJson

  datatype Decoded<V> = Decoded(frames: seq<V>, remainder: bytes)

  /** JSON.stringify and JSON.parse, as far as framing is concerned. */
  datatype Json<!V> = Json(text: V -> bytes, parse: bytes -> Option<V>)

  ghost predicate Lossless<V(!new)>(json: Json<V>) {
    forall v: V :: json.text(v) != [] && NEWLINE !in json.text(v) && json.parse(json.text(v)) == Some(v)
  }

  function EncodeGuestFrame<V>(json: Json<V>, value: V): (r: Result<bytes, FrameError>)
    ensures r.Ok? ==> |r.value| <= MAX_GUEST_FRAME_BYTES && r.value == json.text(value) + [NEWLINE]
  {
    var body := json.text(value) + [NEWLINE];
    if |body| > MAX_GUEST_FRAME_BYTES then Err(FrameTooLarge) else Ok(body)
  }

  /** The first newline at or after the start, or the length. */
  function LineLength(buffer: bytes): (n: nat)
    ensures n <= |buffer| && NEWLINE !in buffer[..n]
    ensures n < |buffer| ==> buffer[n] == NEWLINE
  {
    if buffer == [] || buffer[0] == NEWLINE then 0 else 1 + LineLength(buffer[1..])
  }

  /** What a buffer decodes to: its complete lines in order, blank ones skipped,
      and the incomplete rest. */
  function Frames<V>(json: Json<V>, buffer: bytes): (r: Result<Decoded<V>, FrameError>)
    decreases |buffer|
  {
    var n := LineLength(buffer);
    if n == |buffer| then
      if n > MAX_GUEST_FRAME_BYTES then Err(FrameTooLarge) else Ok(Decoded([], buffer))
    else if n == 0 then Frames(json, buffer[1..])
    else if n + 1 > MAX_GUEST_FRAME_BYTES then Err(FrameTooLarge)
    else
      match json.parse(buffer[..n])
      case None => Err(InvalidJson)
      case Some(v) => Prepend([v], Frames(json, buffer[n + 1..]))
  }

  function Prepend<V>(front: seq<V>, r: Result<Decoded<V>, FrameError>): Result<Decoded<V>, FrameError> {
    if r.Ok? then Ok(Decoded(front + r.value.frames, r.value.remainder)) else r
  }

  function Decode<V>(json: Json<V>, buffer: bytes): Result<Decoded<V>, FrameError> {
    if |buffer| > MAX_GUEST_FRAME_BYTES * 2 then Err(BufferTooLarge) else Frames(json, buffer)
  }

  lemma PrependTwice<V>(a: seq<V>, b: seq<V>, r: Result<Decoded<V>, FrameError>)
    ensures Prepend(a, Prepend(b, r)) == Prepend(a + b, r)
  {
    if r.Ok? {
      assert a + (b + r.value.frames) == a + b + r.value.frames;
    }
  }

  lemma {:induction false} LineLengthAt(buffer: bytes, n: nat)
    requires n <= |buffer| && NEWLINE !in buffer[..n] && (n < |buffer| ==> buffer[n] == NEWLINE)
    ensures LineLength(buffer) == n
  {
  }

  /** The decoding loop: `start` moves past one line at a time. */
  method DecodeGuestFrames<V>(json: Json<V>, buffer: bytes) returns (r: Result<Decoded<V>, FrameError>)
    ensures r == Decode(json, buffer)
  {
    if |buffer| > MAX_GUEST_FRAME_BYTES * 2 {
      return Err(BufferTooLarge);
    }
    var frames: seq<V> := [];
    var start := 0;
    ghost var whole := Ahead(json, buffer, 0);
    assert buffer[0..] == buffer;
    PrependNothing(whole);
    while true
      invariant start <= |buffer| && whole == Prepend(frames, Ahead(json, buffer, start))
      decreases |buffer| - start
    {
      var newline := IndexOfNewline(buffer, start);
      FramesOfLine(json, buffer, start, newline);
      if newline == |buffer| {
        break;
      }
      var length := newline - start;
      if length == 0 {
        start := newline + 1;
        continue;
      }
      if length + 1 > MAX_GUEST_FRAME_BYTES {
        return Err(FrameTooLarge);
      }
      var parsed := json.parse(buffer[start..newline]);
      if parsed.None? {
        return Err(InvalidJson);
      }
      PrependTwice(frames, [parsed.value], Ahead(json, buffer, newline + 1));
      frames := frames + [parsed.value];
      start := newline + 1;
    }
    var remainder := buffer[start..];
    FramesOfLine(json, buffer, start, |buffer|);
    if |remainder| > MAX_GUEST_FRAME_BYTES {
      return Err(FrameTooLarge);
    }
    assert frames + [] == frames;
    r := Ok(Decoded(frames, remainder));
  }

  /** What is still to be decoded. */
  ghost function Ahead<V>(json: Json<V>, buffer: bytes, start: nat): Result<Decoded<V>, FrameError>
    requires start <= |buffer|
  {
    Frames(json, buffer[start..])
  }

  lemma FramesOfLine<V>(json: Json<V>, buffer: bytes, start: nat, newline: nat)
    requires start <= newline <= |buffer| && newline - start == LineLength(buffer[start..])
    ensures Ahead(json, buffer, start) ==
              if newline == |buffer| then
                (if |buffer| - start > MAX_GUEST_FRAME_BYTES then Err(FrameTooLarge) else Ok(Decoded([], buffer[start..])))
              else if start == newline then Ahead(json, buffer, newline + 1)
              else if newline + 1 - start > MAX_GUEST_FRAME_BYTES then Err(FrameTooLarge)
              else match json.parse(buffer[start..newline])
                   case None => Err(InvalidJson)
                   case Some(v) => Prepend([v], Ahead(json, buffer, newline + 1))
  {
    if newline < |buffer| {
      var rest := buffer[start..];
      assert rest[newline - start + 1..] == buffer[newline + 1..];
      assert rest[..newline - start] == buffer[start..newline];
    }
  }

  method IndexOfNewline(buffer: bytes, start: nat) returns (at: nat)
    requires start <= |buffer|
    ensures start <= at <= |buffer| && at - start == LineLength(buffer[start..])
  {
    at := start;
    while at < |buffer| && buffer[at] != NEWLINE
      invariant start <= at <= |buffer|
      invariant NEWLINE !in buffer[start..at]
    {
      at := at + 1;
    }
    assert buffer[start..][..at - start] == buffer[start..at];
    LineLengthAt(buffer[start..], at - start);
  }

  /* ---- Streams ---- */

  /** What a sender writes: frames, and blank lines between them. */
  type Line<V> = Option<V>

  function LineBytes<V>(json: Json<V>, line: Line<V>): bytes {
    match line
    case None => [NEWLINE]
    case Some(v) => json.text(v) + [NEWLINE]
  }

  function StreamBytes<V>(json: Json<V>, lines: seq<Line<V>>): bytes {
    if lines == [] then [] else LineBytes(json, lines[0]) + StreamBytes(json, lines[1..])
  }

  function Values<V>(lines: seq<Line<V>>): seq<V> {
    if lines == [] then []
    else (if lines[0].Some? then [lines[0].value] else []) + Values(lines[1..])
  }

  /** Every line could be encoded. */
  ghost predicate Encodable<V>(json: Json<V>, lines: seq<Line<V>>) {
    forall i :: 0 <= i < |lines| ==> |LineBytes(json, lines[i])| <= MAX_GUEST_FRAME_BYTES
  }

  /** The receiver: the remainder is kept in front of the next chunk. */
  function Receive<V>(json: Json<V>, sofar: Result<Decoded<V>, FrameError>, chunk: bytes): Result<Decoded<V>, FrameError> {
    if sofar.Err? then sofar else Prepend(sofar.value.frames, Decode(json, sofar.value.remainder + chunk))
  }

  function ReceiveAll<V>(json: Json<V>, sofar: Result<Decoded<V>, FrameError>, chunks: seq<bytes>): Result<Decoded<V>, FrameError>
    decreases |chunks|
  {
    if chunks == [] then sofar else ReceiveAll(json, Receive(json, sofar, chunks[0]), chunks[1..])
  }

  /** Decoding a buffer and then what follows it is decoding both at once. */
  lemma {:induction false} FramesOfConcatenation<V>(json: Json<V>, a: bytes, b: bytes)
    requires Frames(json, a).Ok?
    ensures Frames(json, a + b) ==
            Prepend(Frames(json, a).value.frames, Frames(json, Frames(json, a).value.remainder + b))
    decreases |a|
  {
    var n := LineLength(a);
    if n == |a| {
      PrependNothing(Frames(json, a + b));
    } else {
      assert (a + b)[..n] == a[..n];
      LineLengthAt(a + b, n);
      var rest := a[n + 1..];
      assert (a + b)[n + 1..] == rest + b;
      FramesOfConcatenation(json, rest, b);
      if n > 0 {
        var d := Frames(json, rest).value;
        PrependTwice([json.parse(a[..n]).value], d.frames, Frames(json, d.remainder + b));
      }
    }
  }

  lemma PrependNothing<V>(r: Result<Decoded<V>, FrameError>)
    ensures Prepend([], r) == r
  {
    if r.Ok? {
      assert [] + r.value.frames == r.value.frames;
    }
  }

  /** A whole stream decodes to its values, with nothing left over. */
  lemma {:induction false} StreamDecodes<V(!new)>(json: Json<V>, lines: seq<Line<V>>)
    requires Lossless(json) && Encodable(json, lines)
    ensures Frames(json, StreamBytes(json, lines)) == Ok(Decoded(Values(lines), []))
    decreases |lines|
  {
    if lines == [] {
    } else {
      StreamDecodes(json, lines[1..]);
      FirstLine(json, lines[0], StreamBytes(json, lines[1..]));
    }
  }

  lemma FirstLine<V(!new)>(json: Json<V>, line: Line<V>, rest: bytes)
    requires Lossless(json) && |LineBytes(json, line)| <= MAX_GUEST_FRAME_BYTES
    ensures Frames(json, LineBytes(json, line) + rest) ==
            Prepend(if line.Some? then [line.value] else [], Frames(json, rest))
  {
    var body := if line.Some? then json.text(line.value) else [];
    var all := LineBytes(json, line) + rest;
    assert all == body + [NEWLINE] + rest;
    assert all[..|body|] == body;
    LineLengthAt(all, |body|);
    assert all[|body| + 1..] == rest;
    PrependNothing(Frames(json, rest));
  }

  /** Every prefix of a stream decodes; what is left over is part of one line. */
  lemma {:induction false} PrefixDecodes<V(!new)>(json: Json<V>, lines: seq<Line<V>>, prefix: bytes)
    requires Lossless(json) && Encodable(json, lines) && prefix <= StreamBytes(json, lines)
    ensures Frames(json, prefix).Ok? && |Frames(json, prefix).value.remainder| < MAX_GUEST_FRAME_BYTES
    decreases |lines|
  {
    if lines == [] {
    } else {
      var line, rest := LineBytes(json, lines[0]), StreamBytes(json, lines[1..]);
      if |prefix| < |line| {
        assert prefix == line[..|prefix|];
        LineLengthAt(prefix, |prefix|);
      } else {
        var tail := prefix[|line|..];
        assert tail == StreamBytes(json, lines)[|line|..|prefix|] == rest[..|tail|];
        assert prefix == line + tail;
        PrefixDecodes(json, lines[1..], tail);
        FirstLine(json, lines[0], tail);
      }
    }
  }

  /** Feeding a stream's chunks one at a time decodes what has arrived so far. */
  lemma {:induction false} ReceivingIsDecoding<V(!new)>(json: Json<V>, lines: seq<Line<V>>, arrived: bytes, chunks: seq<bytes>)
    requires Lossless(json) && Encodable(json, lines) && arrived + Concat(chunks) == StreamBytes(json, lines)
    requires forall i :: 0 <= i < |chunks| ==> |chunks[i]| <= MAX_GUEST_FRAME_BYTES
    ensures ReceiveAll(json, Frames(json, arrived), chunks) == Ok(Decoded(Values(lines), []))
    decreases |chunks|
  {
    if chunks == [] {
      assert arrived == StreamBytes(json, lines);
      StreamDecodes(json, lines);
    } else {
      var chunk, next := chunks[0], arrived + chunks[0];
      Regroup(arrived, chunk, Concat(chunks[1..]));
      assert arrived == StreamBytes(json, lines)[..|arrived|];
      PrefixDecodes(json, lines, arrived);
      FramesOfConcatenation(json, arrived, chunk);
      assert Receive(json, Frames(json, arrived), chunk) == Frames(json, next);
      ReceivingIsDecoding(json, lines, next, chunks[1..]);
    }
  }

  /** However a stream of encoded frames and blank lines is cut into chunks no
      larger than a frame, the receiver never fails and ends with exactly the
      frames, in order, and nothing left over. */
  lemma EveryChunkingYieldsTheFrames<V(!new)>(json: Json<V>, lines: seq<Line<V>>, chunks: seq<bytes>)
    requires Lossless(json) && Encodable(json, lines) && Concat(chunks) == StreamBytes(json, lines)
    requires forall i :: 0 <= i < |chunks| ==> |chunks[i]| <= MAX_GUEST_FRAME_BYTES
    ensures ReceiveAll(json, Ok(Decoded([], [])), chunks) == Ok(Decoded(Values(lines), []))
  {
    assert [] + Concat(chunks) == Concat(chunks);
    ReceivingIsDecoding(json, lines, [], chunks);
  }

  /** A value decodes from its own frame, unless the frame was refused. */
  lemma FrameRoundTrip<V(!new)>(json: Json<V>, value: V)
    requires Lossless(json) && EncodeGuestFrame(json, value).Ok?
    ensures Decode(json, EncodeGuestFrame(json, value).value) == Ok(Decoded([value], []))
  {
    FirstLine(json, Some(value), []);
    assert [value] + [] == [value];
    assert LineBytes(json, Some(value)) + [] == LineBytes(json, Some(value));
  }
}
