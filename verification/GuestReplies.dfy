/** What may settle a call to the guest: only a line of what has arrived that parses to a
    reply with the request's own id settles it otherwise than as a transport error, and a
    refused handshake settles it before anything is asked. */
module GuestReplies {
  import opened Basics
  import opened GuestProtocol
  import opened GuestChannel

  /** A reply settles with its own result only if it is a success for this request, with
      its own code only if it is a failure of this request, and else as a transport error. */
  lemma VerdictExactly<V(!new), R>(cfg: Config<V, R>, reply: V)
    ensures var verdict := Verdict(cfg, reply);
      && (forall result :: verdict == Resolved(result) <==> cfg.schema(reply) == Some(Success(cfg.id, result)))
      && (forall code :: code != TRANSPORT ==> (verdict == Rejected(code) <==> cfg.schema(reply) == Some(Failure(cfg.id, code))))
      && (verdict == Rejected(TRANSPORT) <==>
            || cfg.schema(reply).None? || cfg.schema(reply).value.id != cfg.id
            || cfg.schema(reply) == Some(Failure(cfg.id, TRANSPORT)))
  {
  }

  function Received(events: seq<Event>): bytes {
    if events == [] then []
    else (if events[0].Data? then events[0].chunk else []) + Received(events[1..])
  }

  /** A whole line of the bytes parses to the value. */
  ghost predicate HasLine<V(!new)>(json: Json<V>, all: bytes, v: V) {
    exists at, end :: 0 <= at < end < |all| && LineAt(json, all, at, end, v)
  }

  predicate LineAt<V(==)>(json: Json<V>, all: bytes, at: nat, end: nat, v: V)
    requires at <= end < |all|
  {
    NEWLINE !in all[at..end] && all[end] == NEWLINE && json.parse(all[at..end]) == Some(v)
  }

  lemma LineInBuffer<V(!new)>(json: Json<V>, front: bytes, back: bytes, v: V)
    requires HasLine(json, back, v)
    ensures HasLine(json, front + back, v)
  {
    var at, end :| 0 <= at < end < |back| && LineAt(json, back, at, end, v);
    assert (front + back)[|front| + at..|front| + end] == back[at..end];
    assert LineAt(json, front + back, |front| + at, |front| + end, v);
  }

  lemma LineStays<V(!new)>(json: Json<V>, all: bytes, more: bytes, v: V)
    requires HasLine(json, all, v)
    ensures HasLine(json, all + more, v)
  {
    var at, end :| 0 <= at < end < |all| && LineAt(json, all, at, end, v);
    assert (all + more)[at..end] == all[at..end];
    assert LineAt(json, all + more, at, end, v);
  }

  /** Every frame that is decoded is a line of the buffer, and what remains is its end. */
  lemma {:induction false} FramesAreLines<V(!new)>(json: Json<V>, buffer: bytes)
    requires Frames(json, buffer).Ok?
    ensures var decoded := Frames(json, buffer).value;
      && (forall v :: v in decoded.frames ==> HasLine(json, buffer, v))
      && |decoded.remainder| <= |buffer| && decoded.remainder == buffer[|buffer| - |decoded.remainder|..]
    decreases |buffer|
  {
    var n := LineLength(buffer);
    if n < |buffer| {
      var rest := buffer[n + 1..];
      FramesAreLines(json, rest);
      assert buffer == buffer[..n + 1] + rest;
      forall v | v in Frames(json, rest).value.frames ensures HasLine(json, buffer, v) { LineInBuffer(json, buffer[..n + 1], rest, v); }
      if n > 0 { assert LineAt(json, buffer, 0, n, json.parse(buffer[..n]).value); }
    }
  }

  /** While the call is pending, both buffers hold the last of what has arrived. */
  ghost predicate Tracks<R>(s: State<R>, all: bytes) {
    s.outcome.Pending? ==>
      && (exists front :: all == front + s.frameBuffer)
      && (s.handshake ==> s.frameBuffer == [] && exists front :: all == front + s.handshakeBuffer)
  }

  /** The outcome comes from a line that has arrived, or is a transport error. */
  ghost predicate Founded<V(!new), R>(cfg: Config<V, R>, o: Outcome<R>, all: bytes) {
    match o
    case Pending => true
    case Resolved(result) => exists reply :: HasLine(cfg.json, all, reply) && cfg.schema(reply) == Some(Success(cfg.id, result))
    case Rejected(code) =>
      code == TRANSPORT || exists reply :: HasLine(cfg.json, all, reply) && cfg.schema(reply) == Some(Failure(cfg.id, code))
  }

  lemma FoundedStays<V(!new), R>(cfg: Config<V, R>, o: Outcome<R>, all: bytes, more: bytes)
    requires Founded(cfg, o, all)
    ensures Founded(cfg, o, all + more)
  {
    forall v | HasLine(cfg.json, all, v) ensures HasLine(cfg.json, all + more, v) { LineStays(cfg.json, all, more, v); }
  }

  lemma ConsumingIsFounded<V(!new), R>(cfg: Config<V, R>, s: State<R>, front: bytes, chunk: bytes)
    requires s.outcome.Pending? && !s.handshake
    ensures var t := ConsumeFrames(cfg, s, chunk); var all := front + (s.frameBuffer + chunk);
      Tracks(t, all) && Founded(cfg, t.outcome, all)
  {
    var buffer := s.frameBuffer + chunk;
    var decoded := Decode(cfg.json, buffer);
    if decoded.Ok? {
      FramesAreLines(cfg.json, buffer);
      var kept := |buffer| - |decoded.value.remainder|;
      assert front + buffer == (front + buffer[..kept]) + decoded.value.remainder;
      if |decoded.value.frames| == 1 {
        var reply := decoded.value.frames[0];
        LineInBuffer(cfg.json, front, buffer, reply);
        VerdictExactly(cfg, reply);
      }
    }
  }

  lemma AfterHandshakeIsFounded<V(!new), R>(cfg: Config<V, R>, u: State<R>, front: bytes, rest: bytes)
    requires !u.handshake && u.frameBuffer == [] && (u.outcome.Pending? || u.outcome == Rejected(TRANSPORT))
    ensures var t := if rest == [] then u else ConsumeFrames(cfg, u, rest);
      Tracks(t, front + rest) && Founded(cfg, t.outcome, front + rest)
  {
    if rest == [] {
      assert front + rest == front + rest + u.frameBuffer;
    } else if u.outcome.Pending? {
      assert u.frameBuffer + rest == rest;
      ConsumingIsFounded(cfg, u, front, rest);
    }
  }

  lemma ShakingIsFounded<V(!new), R>(cfg: Config<V, R>, s: State<R>, front: bytes, chunk: bytes)
    requires s.outcome.Pending? && s.handshake && s.frameBuffer == []
    ensures var t := Shake(cfg, s, chunk); var all := front + (s.handshakeBuffer + chunk);
      Tracks(t, all) && Founded(cfg, t.outcome, all)
  {
    var buffer := s.handshakeBuffer + chunk;
    var n := LineLength(buffer);
    assert front + buffer == front + buffer + [];
    if n < |buffer| && HandshakeAccepted(buffer[..n]) {
      ShakeAtTheLine(cfg, s, chunk, n);
      var u := SendRequest(cfg, s.(handshakeBuffer := [], handshake := false));
      assert buffer == buffer[..n + 1] + buffer[n + 1..];
      Regroup(front, buffer[..n + 1], buffer[n + 1..]);
      AfterHandshakeIsFounded(cfg, u, front + buffer[..n + 1], buffer[n + 1..]);
    } else {
      LineNotAccepted(cfg, s, chunk, n);
    }
  }

  lemma LineNotAccepted<V, R>(cfg: Config<V, R>, s: State<R>, chunk: bytes, n: nat)
    requires s.outcome.Pending? && s.handshake
    requires var buffer := s.handshakeBuffer + chunk;
      n == LineLength(buffer) && (n == |buffer| || !HandshakeAccepted(buffer[..n]))
    ensures var t := Shake(cfg, s, chunk);
      t.handshake && t.frameBuffer == s.frameBuffer && t.handshakeBuffer == s.handshakeBuffer + chunk
      && (t.outcome.Pending? || t.outcome == Rejected(TRANSPORT))
  {
  }

  lemma StepIsFounded<V(!new), R>(cfg: Config<V, R>, s: State<R>, e: Event, all: bytes)
    requires Tracks(s, all) && Founded(cfg, s.outcome, all)
    ensures var t := Step(cfg, s, e); var more := all + (if e.Data? then e.chunk else []);
      Tracks(t, more) && Founded(cfg, t.outcome, more)
  {
    if !s.outcome.Pending? {
      FoundedStays(cfg, s.outcome, all, if e.Data? then e.chunk else []);
    } else if e.Data? {
      if s.handshake {
        var front :| all == front + s.handshakeBuffer;
        Regroup(front, s.handshakeBuffer, e.chunk);
        ShakingIsFounded(cfg, s, front, e.chunk);
      } else {
        var front :| all == front + s.frameBuffer;
        Regroup(front, s.frameBuffer, e.chunk);
        ConsumingIsFounded(cfg, s, front, e.chunk);
      }
    } else {
      assert all + [] == all;
    }
  }

  lemma {:induction false} RunIsFounded<V(!new), R>(cfg: Config<V, R>, s: State<R>, events: seq<Event>, all: bytes)
    requires Tracks(s, all) && Founded(cfg, s.outcome, all)
    ensures Founded(cfg, Run(cfg, s, events).outcome, all + Received(events))
    decreases |events|
  {
    if events == [] {
      assert all + Received(events) == all;
    } else {
      var chunk := if events[0].Data? then events[0].chunk else [];
      StepIsFounded(cfg, s, events[0], all);
      RunIsFounded(cfg, Step(cfg, s, events[0]), events[1..], all + chunk);
      Regroup(all, chunk, Received(events[1..]));
    }
  }

  /** Whatever happens on the connection, a call has a result only if a line has arrived
      that parses to a success reply with its id and this result, and is rejected with the
      guest's code only if one has that parses to a failure reply with its id and the code. */
  lemma OnlyItsOwnReplySettles<V(!new), R>(cfg: Config<V, R>, events: seq<Event>)
    ensures Founded(cfg, Run(cfg, Start(cfg), events).outcome, Received(events))
  {
    var s := Start(cfg);
    assert [] == [] + s.frameBuffer && [] == [] + s.handshakeBuffer;
    RunIsFounded(cfg, s, events, []);
    assert [] + Received(events) == Received(events);
  }

  /** A handshake line other than "OK " and a number rejects the call, and the request is
      never sent, however the line is cut up and whatever follows. */
  lemma RefusedHandshakeRejects<V(!new), R>(cfg: Config<V, R>, line: bytes, before: seq<bytes>, chunk: bytes, later: seq<Event>)
    requires cfg.vsock && NEWLINE !in line && !HandshakeAccepted(line)
    requires Concat(before) <= line && line + [NEWLINE] <= Concat(before) + chunk
    ensures var s := Run(cfg, Start(cfg), Arrivals(before) + ([Data(chunk)] + later));
      s.outcome == Rejected(TRANSPORT)
    ensures Run(cfg, Start(cfg), Arrivals(before) + [Data(chunk)]).sent == []
  {
    var s := Start(cfg);
    var tail := [Data(chunk)] + later;
    assert s.handshakeBuffer + Concat(before) == Concat(before) == line[..|Concat(before)|];
    RunInTwo(cfg, s, Arrivals(before), tail);
    RunInTwo(cfg, s, Arrivals(before), [Data(chunk)]);
    HandshakeKeepsAsking(cfg, s, before);
    var t := Run(cfg, s, Arrivals(before));
    assert tail[1..] == later;
    LineRefused(cfg, t, line, chunk);
    SettlesOnce(cfg, Step(cfg, t, Data(chunk)), later);
  }

  /** While no newline has come nothing is sent, and nothing but the limit rejects. */
  lemma {:induction false} HandshakeKeepsAsking<V(!new), R>(cfg: Config<V, R>, s: State<R>, chunks: seq<bytes>)
    requires s.handshake && (s.outcome.Pending? || s.outcome == Rejected(TRANSPORT))
    requires NEWLINE !in s.handshakeBuffer + Concat(chunks)
    ensures var t := Run(cfg, s, Arrivals(chunks));
      t.handshake && t.handshakeBuffer == s.handshakeBuffer + Concat(chunks) && t.sent == s.sent
      && (t.outcome.Pending? || t.outcome == Rejected(TRANSPORT))
    decreases |chunks|
  {
    if chunks == [] {
      assert s.handshakeBuffer + Concat(chunks) == s.handshakeBuffer;
    } else {
      var buffer := s.handshakeBuffer + chunks[0];
      assert Arrivals(chunks)[1..] == Arrivals(chunks[1..]);
      Regroup(s.handshakeBuffer, chunks[0], Concat(chunks[1..]));
      assert buffer == (buffer + Concat(chunks[1..]))[..|buffer|];
      LineLengthAt(buffer, |buffer|);
      HandshakeKeepsAsking(cfg, Step(cfg, s, Data(chunks[0])), chunks[1..]);
    }
  }

  lemma LineRefused<V(!new), R>(cfg: Config<V, R>, s: State<R>, line: bytes, chunk: bytes)
    requires s.handshake && (s.outcome.Pending? || s.outcome == Rejected(TRANSPORT))
    requires NEWLINE !in line && !HandshakeAccepted(line) && line + [NEWLINE] <= s.handshakeBuffer + chunk
    ensures Step(cfg, s, Data(chunk)).outcome == Rejected(TRANSPORT) && Step(cfg, s, Data(chunk)).sent == s.sent
  {
    var buffer := s.handshakeBuffer + chunk;
    assert buffer[..|line| + 1] == line + [NEWLINE];
    assert buffer[..|line|] == line && buffer[|line|] == NEWLINE;
    LineLengthAt(buffer, |line|);
  }

  // ---- What a chunk does to a pending call -----------------------------------

  /** The bytes end nowhere after something other than newlines. */
  predicate NoWholeLine(b: bytes) {
    forall end :: 0 < end < |b| && b[end] == NEWLINE ==> b[end - 1] == NEWLINE
  }

  predicate Blank(b: bytes) { forall i :: 0 <= i < |b| ==> b[i] == NEWLINE }

  /** One line that parses to the value, and blank lines before and after it. */
  predicate OneLine<V(==)>(json: Json<V>, b: bytes, at: nat, end: nat, v: V) {
    at < end < |b| && LineAt(json, b, at, end, v) && Blank(b[..at]) && Blank(b[end + 1..])
  }

  ghost predicate OnlyLine<V>(json: Json<V>, b: bytes, v: V) { exists at: nat, end: nat :: OneLine(json, b, at, end, v) }

  lemma {:induction false} FramesOfBlank<V(!new)>(json: Json<V>, b: bytes)
    requires |b| <= MAX_GUEST_FRAME_BYTES
    ensures Frames(json, b) == Ok(Decoded([], [])) <==> Blank(b)
    decreases |b|
  {
    var n := LineLength(b);
    if n < |b| {
      FramesOfBlank(json, b[n + 1..]);
      if n == 0 { assert b == [NEWLINE] + b[1..]; }
    }
  }

  lemma {:induction false} NoFramesExactly<V(!new)>(json: Json<V>, b: bytes)
    requires |b| <= MAX_GUEST_FRAME_BYTES
    ensures Frames(json, b).Ok? && Frames(json, b).value.frames == [] <==> NoWholeLine(b)
    decreases |b|
  {
    var n := LineLength(b);
    if n == |b| {
      assert b[..n] == b;
    } else if n == 0 {
      NoFramesExactly(json, b[1..]);
      NoWholeLineAfterBlank(b);
    } else {
      assert b[..n][n - 1] != NEWLINE;
    }
  }

  lemma NoWholeLineAfterBlank(b: bytes)
    requires b != [] && b[0] == NEWLINE
    ensures NoWholeLine(b) <==> NoWholeLine(b[1..])
  {
    if NoWholeLine(b[1..]) {
      forall end | 0 < end < |b| && b[end] == NEWLINE ensures b[end - 1] == NEWLINE {
        if end > 1 { assert b[1..][end - 1] == NEWLINE; }
      }
    }
    if NoWholeLine(b) {
      forall end | 0 < end < |b[1..]| && b[1..][end] == NEWLINE ensures b[1..][end - 1] == NEWLINE { assert b[end + 1] == NEWLINE; }
    }
  }

  lemma OneLineAfterBlank<V(!new)>(json: Json<V>, b: bytes, v: V)
    requires b != [] && b[0] == NEWLINE
    ensures OnlyLine(json, b, v) <==> OnlyLine(json, b[1..], v)
  {
    var rest := b[1..];
    if at: nat, end: nat :| OneLine(json, b, at, end, v) {
      assert b[at] == b[at..end][0];
      assert b[at] != NEWLINE;
      assert rest[at - 1..end - 1] == b[at..end] && rest[..at - 1] == b[..at][1..] && rest[end..] == b[end + 1..];
      assert OneLine(json, rest, at - 1, end - 1, v);
    }
    if at: nat, end: nat :| OneLine(json, rest, at, end, v) {
      assert b[at + 1..end + 1] == rest[at..end] && b[..at + 1] == [NEWLINE] + rest[..at] && b[end + 2..] == rest[end + 1..];
      assert OneLine(json, b, at + 1, end + 1, v);
    }
  }

  lemma OneLineStarts<V(!new)>(json: Json<V>, b: bytes, at: nat, end: nat, v: V)
    requires OneLine(json, b, at, end, v)
    ensures LineLength(b) == if at == 0 then end else 0
  {
    if at == 0 {
      assert b[0..end] == b[..end];
      LineLengthAt(b, end);
    } else {
      assert b[..at][0] == b[0];
      LineLengthAt(b, 0);
    }
  }

  /** A buffer that starts with a line is one line exactly if the rest is blank. */
  lemma OneLineInFront<V(!new)>(json: Json<V>, b: bytes, n: nat, v: V)
    requires 0 < n < |b| && NEWLINE !in b[..n] && b[n] == NEWLINE
    ensures OnlyLine(json, b, v) <==> json.parse(b[..n]) == Some(v) && Blank(b[n + 1..])
  {
    if at: nat, end: nat :| OneLine(json, b, at, end, v) {
      LineLengthAt(b, n);
      OneLineStarts(json, b, at, end, v);
      assert b[at..end] == b[..n];
    }
    if json.parse(b[..n]) == Some(v) && Blank(b[n + 1..]) {
      assert b[0..n] == b[..n] && b[..0] == [];
      assert OneLine(json, b, 0, n, v);
    }
  }

  lemma {:induction false} OneFrameExactly<V(!new)>(json: Json<V>, b: bytes, v: V)
    requires |b| <= MAX_GUEST_FRAME_BYTES
    ensures Frames(json, b) == Ok(Decoded([v], [])) <==> OnlyLine(json, b, v)
    decreases |b|
  {
    var n := LineLength(b);
    if n == |b| {
      assert b[..n] == b;
    } else if n == 0 {
      OneFrameExactly(json, b[1..], v);
      OneLineAfterBlank(json, b, v);
    } else {
      OneLineInFront(json, b, n, v);
      FramesOfBlank(json, b[n + 1..]);
      PrependedIsOne(json.parse(b[..n]), Frames(json, b[n + 1..]), v);
    }
  }

  lemma PrependedIsOne<V>(parsed: Option<V>, rest: Result<Decoded<V>, FrameError>, v: V)
    ensures parsed.Some? ==>
      (Prepend([parsed.value], rest) == Ok(Decoded([v], [])) <==> parsed.value == v && rest == Ok(Decoded([], [])))
  {
    if parsed.Some? && Prepend([parsed.value], rest) == Ok(Decoded([v], [])) {
      assert ([parsed.value] + rest.value.frames)[0] == v;
      assert |[parsed.value] + rest.value.frames| == 1 + |rest.value.frames| == 1;
    }
    assert [v] + [] == [v];
  }

  /** What a chunk does to a call that awaits its reply: with all that has come since the
      last line, the call stays pending exactly while there is no whole line and no excess;
      it is settled by the reply exactly if that is the only line; and else it is rejected
      as a transport error. */
  lemma ChunkSettlesExactly<V(!new), R>(cfg: Config<V, R>, s: State<R>, chunk: bytes)
    requires s.outcome.Pending? && !s.handshake
    ensures var arrived := s.frameBuffer + chunk; var t := Step(cfg, s, Data(chunk));
      && (t.outcome.Pending? <==> |arrived| <= MAX_GUEST_FRAME_BYTES && NoWholeLine(arrived))
      && (forall reply :: |arrived| <= MAX_GUEST_FRAME_BYTES && OnlyLine(cfg.json, arrived, reply) ==> t.outcome == Verdict(cfg, reply))
      && (t.outcome.Resolved? ==>
            |arrived| <= MAX_GUEST_FRAME_BYTES
            && exists reply :: OnlyLine(cfg.json, arrived, reply) && cfg.schema(reply) == Some(Success(cfg.id, t.outcome.result)))
      && t.sent == s.sent
  {
    var arrived := s.frameBuffer + chunk;
    if |arrived| <= MAX_GUEST_FRAME_BYTES {
      NoFramesExactly(cfg.json, arrived);
      forall reply ensures Frames(cfg.json, arrived) == Ok(Decoded([reply], [])) <==> OnlyLine(cfg.json, arrived, reply) {
        OneFrameExactly(cfg.json, arrived, reply);
      }
      OnlyLineSettles(cfg, s, chunk);
    }
  }

  lemma OnlyLineSettles<V(!new), R>(cfg: Config<V, R>, s: State<R>, chunk: bytes)
    requires s.outcome.Pending? && |s.frameBuffer + chunk| <= MAX_GUEST_FRAME_BYTES
    ensures var arrived := s.frameBuffer + chunk; var t := ConsumeFrames(cfg, s, chunk);
      && (t.outcome.Pending? <==> Frames(cfg.json, arrived).Ok? && Frames(cfg.json, arrived).value.frames == [])
      && (forall reply :: Frames(cfg.json, arrived) == Ok(Decoded([reply], [])) ==> t.outcome == Verdict(cfg, reply))
      && (t.outcome.Resolved? ==> exists reply ::
            Frames(cfg.json, arrived) == Ok(Decoded([reply], [])) && cfg.schema(reply) == Some(Success(cfg.id, t.outcome.result)))
  {
    var decoded := Frames(cfg.json, s.frameBuffer + chunk);
    if decoded.Ok? && |decoded.value.frames| == 1 {
      assert decoded.value.frames == [decoded.value.frames[0]];
      VerdictExactly(cfg, decoded.value.frames[0]);
    }
  }

  /** A request that fits no frame is never sent: the call is rejected when it would be. */
  lemma UnfitRequestRejects<V, R>(cfg: Config<V, R>, s: State<R>)
    requires s.outcome.Pending? && !cfg.vsock && !RequestFits(cfg)
    ensures Step(cfg, s, Connected).outcome == Rejected(TRANSPORT) && Step(cfg, s, Connected).sent == s.sent
  {
  }

  // ---- The handshake line ----------------------------------------------------

  /** The highest bit of a byte does not count. */
  lemma SevenBitsCount(b: byte)
    ensures Ascii(b) == if b < 128 then b as int else b as int - 128
  {
  }

  function SevenBit(line: bytes): seq<int> { seq(|line|, i requires 0 <= i < |line| => Ascii(line[i])) }

  predicate Digits(s: seq<int>) { s != [] && forall c :: c in s ==> 48 <= c <= 57 }

  /** A handshake line is accepted exactly if its text is "OK", a space and a number. */
  lemma AcceptedExactly(line: bytes)
    ensures HandshakeAccepted(line) <==> exists number: seq<int> :: Digits(number) && SevenBit(line) == [79, 75, 32] + number
  {
    var text := SevenBit(line);
    if HandshakeAccepted(line) {
      assert text == [79, 75, 32] + text[3..];
      assert Digits(text[3..]);
    }
    if number: seq<int> :| Digits(number) && text == [79, 75, 32] + number {
      assert text[0] == 79 && text[1] == 75 && text[2] == 32;
      forall i | 3 <= i < |line| ensures 48 <= Ascii(line[i]) <= 57 { assert text[i] == number[i - 3] && number[i - 3] in number; }
    }
  }
}
