/** One request over one connection to the guest (src/agent/guest-channel.ts):
    event handlers that share four variables and must settle a promise once. */
module GuestChannel {
  import opened Basics
  import opened GuestProtocol

  const MAX_HANDSHAKE_BYTES := 128
  const TRANSPORT := "transport"

  datatype Response<R> = Success(id: string, result: R) | Failure(id: string, code: string)

  datatype Outcome<R> = Pending | Resolved(result: R) | Rejected(code: string)

  /** `schema` is the response schema. */
  datatype Config<!V, !R> = Config(
    json: Json<V>,
    schema: V -> Option<Response<R>>,
    id: string,
    request: V,
    vsock: bool)

  datatype State<R> = State(
    outcome: Outcome<R>,
    handshake: bool,
    handshakeBuffer: bytes,
    frameBuffer: bytes,
    sent: seq<bytes>)

  datatype Event = Connected | Data(chunk: bytes) | Failed | Closed | TimedOut

  function Start<V, R>(cfg: Config<V, R>): State<R> {
    State(Pending, cfg.vsock, [], [], [])
  }

  /** Only the first settlement counts. */
  function Finish<R>(s: State<R>, outcome: Outcome<R>): State<R> {
    if s.outcome.Pending? then s.(outcome := outcome) else s
  }

  function SendRequest<V, R>(cfg: Config<V, R>, s: State<R>): State<R> {
    match EncodeGuestFrame(cfg.json, cfg.request)
    case Ok(frame) => s.(sent := s.sent + [frame])
    case Err(_) => Finish(s, Rejected(TRANSPORT))
  }

  predicate RequestFits<V, R>(cfg: Config<V, R>) {
    EncodeGuestFrame(cfg.json, cfg.request).Ok?
  }

  /** Seven-bit text, as the handshake is decoded. */
  function Ascii(b: byte): int { b as int % 128 }

  /** "OK " and a decimal number. */
  predicate HandshakeAccepted(line: bytes) {
    && |line| >= 4
    && Ascii(line[0]) == 79 && Ascii(line[1]) == 75 && Ascii(line[2]) == 32
    && forall i :: 3 <= i < |line| ==> 48 <= Ascii(line[i]) <= 57
  }

  function ConsumeFrames<V, R>(cfg: Config<V, R>, s: State<R>, chunk: bytes): State<R> {
    var buffer := s.frameBuffer + chunk;
    var t := s.(frameBuffer := buffer);
    if |buffer| > MAX_GUEST_FRAME_BYTES then Finish(t, Rejected(TRANSPORT))
    else
      match Decode(cfg.json, buffer)
      case Err(_) => Finish(t, Rejected(TRANSPORT))
      case Ok(decoded) =>
        var u := s.(frameBuffer := decoded.remainder);
        if decoded.frames == [] then u
        else if |decoded.frames| != 1 || decoded.remainder != [] then Finish(u, Rejected(TRANSPORT))
        else Finish(u, Verdict(cfg, decoded.frames[0]))
  }

  /** What a reply settles the promise with. */
  function Verdict<V, R>(cfg: Config<V, R>, reply: V): (o: Outcome<R>)
    ensures !o.Pending?
  {
    match cfg.schema(reply)
    case None => Rejected(TRANSPORT)
    case Some(Success(id, result)) => if id != cfg.id then Rejected(TRANSPORT) else Resolved(result)
    case Some(Failure(id, code)) => if id != cfg.id then Rejected(TRANSPORT) else Rejected(code)
  }

  function Shake<V, R>(cfg: Config<V, R>, s: State<R>, chunk: bytes): State<R> {
    var buffer := s.handshakeBuffer + chunk;
    var t := s.(handshakeBuffer := buffer);
    if |buffer| > MAX_HANDSHAKE_BYTES then Finish(t, Rejected(TRANSPORT))
    else
      var newline := LineLength(buffer);
      if newline == |buffer| then t
      else if !HandshakeAccepted(buffer[..newline]) then Finish(t, Rejected(TRANSPORT))
      else
        var u := SendRequest(cfg, t.(handshakeBuffer := [], handshake := false));
        if buffer[newline + 1..] == [] then u else ConsumeFrames(cfg, u, buffer[newline + 1..])
  }

  function Step<V, R>(cfg: Config<V, R>, s: State<R>, e: Event): State<R> {
    match e
    case Connected => if cfg.vsock then s else SendRequest(cfg, s)
    case Data(chunk) => if s.handshake then Shake(cfg, s, chunk) else ConsumeFrames(cfg, s, chunk)
    case Failed => Finish(s, Rejected(TRANSPORT))
    case Closed => Finish(s, Rejected(TRANSPORT))
    case TimedOut => Finish(s, Rejected(TRANSPORT))
  }

  function Run<V, R>(cfg: Config<V, R>, s: State<R>, events: seq<Event>): State<R>
    decreases |events|
  {
    if events == [] then s else Run(cfg, Step(cfg, s, events[0]), events[1..])
  }

  function Arrivals(chunks: seq<bytes>): (events: seq<Event>)
    ensures |events| == |chunks|
  {
    if chunks == [] then [] else [Data(chunks[0])] + Arrivals(chunks[1..])
  }

  /** The variables of one call, changed by its event handlers. */
  class Channel<!V, !R> {
    const cfg: Config<V, R>
    var outcome: Outcome<R>
    var handshake: bool
    var handshakeBuffer: bytes
    var frameBuffer: bytes
    var sent: seq<bytes>

    ghost function Model(): State<R>
      reads this
    {
      State(outcome, handshake, handshakeBuffer, frameBuffer, sent)
    }

    constructor (cfg: Config<V, R>)
      ensures this.cfg == cfg && Model() == Start(cfg)
    {
      this.cfg := cfg;
      outcome, handshake, handshakeBuffer, frameBuffer, sent := Pending, cfg.vsock, [], [], [];
    }

    method Settle(o: Outcome<R>)
      modifies this`outcome
      ensures Model() == Finish(old(Model()), o)
    {
      if outcome.Pending? {
        outcome := o;
      }
    }

    method WriteRequest()
      modifies this`outcome, this`sent
      ensures Model() == SendRequest(cfg, old(Model()))
    {
      var frame := EncodeGuestFrame(cfg.json, cfg.request);
      if frame.Ok? {
        sent := sent + [frame.value];
      } else {
        Settle(Rejected(TRANSPORT));
      }
    }

    method OnConnect()
      modifies this`outcome, this`sent
      ensures Model() == Step(cfg, old(Model()), Connected)
    {
      if !cfg.vsock {
        WriteRequest();
      }
    }

    method OnData(chunk: bytes)
      modifies this
      ensures Model() == Step(cfg, old(Model()), Data(chunk))
    {
      if !handshake {
        Consume(chunk);
        return;
      }
      handshakeBuffer := handshakeBuffer + chunk;
      if |handshakeBuffer| > MAX_HANDSHAKE_BYTES {
        Settle(Rejected(TRANSPORT));
        return;
      }
      var newline := IndexOfNewline(handshakeBuffer, 0);
      assert handshakeBuffer[0..] == handshakeBuffer;
      if newline == |handshakeBuffer| {
        return;
      }
      if !HandshakeAccepted(handshakeBuffer[..newline]) {
        Settle(Rejected(TRANSPORT));
        return;
      }
      var remainder := handshakeBuffer[newline + 1..];
      handshakeBuffer := [];
      handshake := false;
      WriteRequest();
      if |remainder| > 0 {
        Consume(remainder);
      }
    }

    method Consume(chunk: bytes)
      modifies this`outcome, this`frameBuffer
      ensures Model() == ConsumeFrames(cfg, old(Model()), chunk)
    {
      frameBuffer := frameBuffer + chunk;
      if |frameBuffer| > MAX_GUEST_FRAME_BYTES {
        Settle(Rejected(TRANSPORT));
        return;
      }
      var decoded := DecodeGuestFrames(cfg.json, frameBuffer);
      if decoded.Err? {
        Settle(Rejected(TRANSPORT));
        return;
      }
      frameBuffer := decoded.value.remainder;
      if |decoded.value.frames| == 0 {
        return;
      }
      if |decoded.value.frames| != 1 || |frameBuffer| != 0 {
        Settle(Rejected(TRANSPORT));
        return;
      }
      var response := cfg.schema(decoded.value.frames[0]);
      if response.None? || response.value.id != cfg.id {
        Settle(Rejected(TRANSPORT));
      } else if response.value.Failure? {
        Settle(Rejected(response.value.code));
      } else {
        Settle(Resolved(response.value.result));
      }
    }

    method OnEnd(e: Event)
      requires e.Failed? || e.Closed? || e.TimedOut?
      modifies this`outcome
      ensures Model() == Step(cfg, old(Model()), e)
    {
      Settle(Rejected(TRANSPORT));
    }
  }

  /* ---- Properties ---- */

  /** Once settled, the promise never changes; and the end of the connection or
      of the time allowed settles it. */
  lemma {:induction false} SettlesOnce<V, R>(cfg: Config<V, R>, s: State<R>, events: seq<Event>)
    ensures !s.outcome.Pending? ==> Run(cfg, s, events).outcome == s.outcome
    ensures (exists i :: 0 <= i < |events| && !events[i].Connected? && !events[i].Data?) ==>
              !Run(cfg, s, events).outcome.Pending?
    decreases |events|
  {
    if events != [] {
      SettlesOnce(cfg, Step(cfg, s, events[0]), events[1..]);
      if i :| 0 <= i < |events| && !events[i].Connected? && !events[i].Data? {
        if i > 0 {
          assert events[1..][i - 1] == events[i];
        }
      }
    }
  }

  function FrameOf<V, R>(cfg: Config<V, R>, reply: V): bytes {
    cfg.json.text(reply) + [NEWLINE]
  }

  /** If the connection opens once, at most one frame is written, and it is the request's. */
  lemma {:induction false} RequestsAreSentOnce<V, R>(cfg: Config<V, R>, s: State<R>, events: seq<Event>)
    requires forall i :: 0 <= i < |events| ==> !events[i].Connected?
    ensures var t := Run(cfg, s, events);
      t.sent == s.sent || (s.handshake && t.sent == s.sent + [FrameOf(cfg, cfg.request)])
    decreases |events|
  {
    if events != [] {
      RequestsAreSentOnce(cfg, Step(cfg, s, events[0]), events[1..]);
    }
  }

  /** The state once the first `|arrived|` bytes of a reply have come in. */
  ghost predicate Fed<V, R>(cfg: Config<V, R>, s: State<R>, reply: V, arrived: bytes) {
    && !s.handshake
    && if arrived == FrameOf(cfg, reply) then s.outcome == Verdict(cfg, reply)
       else s.outcome.Pending? && s.frameBuffer == arrived
  }

  lemma PartialFrameDecodesToNothing<V(!new), R>(cfg: Config<V, R>, reply: V, part: bytes)
    requires Lossless(cfg.json) && part < FrameOf(cfg, reply) && |FrameOf(cfg, reply)| <= MAX_GUEST_FRAME_BYTES
    ensures Decode(cfg.json, part) == Ok(Decoded([], part))
  {
    assert part == cfg.json.text(reply)[..|part|];
    LineLengthAt(part, |part|);
  }

  lemma FeedingOneChunk<V(!new), R>(cfg: Config<V, R>, s: State<R>, reply: V, arrived: bytes, chunk: bytes)
    requires Lossless(cfg.json) && |FrameOf(cfg, reply)| <= MAX_GUEST_FRAME_BYTES
    requires Fed(cfg, s, reply, arrived) && arrived + chunk <= FrameOf(cfg, reply)
    ensures Fed(cfg, ConsumeFrames(cfg, s, chunk), reply, arrived + chunk)
  {
    var frame := FrameOf(cfg, reply);
    var next := arrived + chunk;
    if arrived == frame {
      assert next == frame;
    } else if next == frame {
      FrameRoundTrip(cfg.json, reply);
    } else {
      PartialFrameDecodesToNothing(cfg, reply, next);
    }
  }

  /** However a reply is cut up, the promise is pending until its last byte, and
      then settled by it. */
  lemma {:induction false} FeedingAReply<V(!new), R>(
      cfg: Config<V, R>, s: State<R>, reply: V, arrived: bytes, chunks: seq<bytes>)
    requires Lossless(cfg.json) && |FrameOf(cfg, reply)| <= MAX_GUEST_FRAME_BYTES
    requires Fed(cfg, s, reply, arrived) && arrived + Concat(chunks) <= FrameOf(cfg, reply)
    ensures Fed(cfg, Run(cfg, s, Arrivals(chunks)), reply, arrived + Concat(chunks))
    decreases |chunks|
  {
    if chunks == [] {
      assert arrived + Concat(chunks) == arrived;
    } else {
      Regroup(arrived, chunks[0], Concat(chunks[1..]));
      assert arrived + chunks[0] <= arrived + chunks[0] + Concat(chunks[1..]);
      FeedingOneChunk(cfg, s, reply, arrived, chunks[0]);
      FeedingAReply(cfg, ConsumeFrames(cfg, s, chunks[0]), reply, arrived + chunks[0], chunks[1..]);
      assert Arrivals(chunks)[1..] == Arrivals(chunks[1..]);
    }
  }

  /** Over a Unix socket: for every way of cutting any prefix of the reply, the
      call is pending while the reply is incomplete and then has its result. */
  lemma UnixReplySettles<V(!new), R>(cfg: Config<V, R>, reply: V, chunks: seq<bytes>)
    requires Lossless(cfg.json) && |FrameOf(cfg, reply)| <= MAX_GUEST_FRAME_BYTES
    requires !cfg.vsock && RequestFits(cfg) && Concat(chunks) <= FrameOf(cfg, reply)
    ensures var s := Run(cfg, Start(cfg), [Connected] + Arrivals(chunks));
      s.outcome == if Concat(chunks) == FrameOf(cfg, reply) then Verdict(cfg, reply) else Pending
  {
    var s := Step(cfg, Start(cfg), Connected);
    assert ([Connected] + Arrivals(chunks))[1..] == Arrivals(chunks);
    assert [] + Concat(chunks) == Concat(chunks);
    FeedingAReply(cfg, s, reply, [], chunks);
  }

  /** While no newline has come, the handshake waits, up to its limit. */
  lemma {:induction false} HandshakeWaits<V(!new), R>(cfg: Config<V, R>, s: State<R>, chunks: seq<bytes>)
    requires s.handshake && s.outcome.Pending? && |s.handshakeBuffer| <= MAX_HANDSHAKE_BYTES
    requires NEWLINE !in s.handshakeBuffer + Concat(chunks)
    ensures var t := Run(cfg, s, Arrivals(chunks));
      var buffer := s.handshakeBuffer + Concat(chunks);
      if |buffer| <= MAX_HANDSHAKE_BYTES then t == s.(handshakeBuffer := buffer)
      else t.outcome == Rejected(TRANSPORT)
    decreases |chunks|
  {
    if chunks == [] {
      assert s.handshakeBuffer + Concat(chunks) == s.handshakeBuffer;
    } else {
      var buffer := s.handshakeBuffer + chunks[0];
      var t := Step(cfg, s, Data(chunks[0]));
      assert Arrivals(chunks)[1..] == Arrivals(chunks[1..]);
      Regroup(s.handshakeBuffer, chunks[0], Concat(chunks[1..]));
      if |buffer| > MAX_HANDSHAKE_BYTES {
        SettlesOnce(cfg, t, Arrivals(chunks[1..]));
      } else {
        assert buffer == (buffer + Concat(chunks[1..]))[..|buffer|];
        LineLengthAt(buffer, |buffer|);
        HandshakeWaits(cfg, t, chunks[1..]);
      }
    }
  }

  lemma {:induction false} RunInTwo<V, R>(cfg: Config<V, R>, s: State<R>, first: seq<Event>, second: seq<Event>)
    ensures Run(cfg, s, first + second) == Run(cfg, Run(cfg, s, first), second)
    decreases |first|
  {
    if first == [] {
      assert first + second == second;
    } else {
      assert (first + second)[1..] == first[1..] + second;
      RunInTwo(cfg, Step(cfg, s, first[0]), first[1..], second);
    }
  }

  /** The chunk that completes the handshake, possibly with the beginning of the
      reply behind it. */
  lemma HandshakeCompletes<V(!new), R>(cfg: Config<V, R>, s: State<R>, reply: V, line: bytes, chunk: bytes)
    requires Lossless(cfg.json) && |FrameOf(cfg, reply)| <= MAX_GUEST_FRAME_BYTES && RequestFits(cfg)
    requires s.handshake && s.outcome.Pending? && s.frameBuffer == []
    requires HandshakeAccepted(line) && NEWLINE !in line
    requires s.handshakeBuffer + chunk <= line + [NEWLINE] + FrameOf(cfg, reply)
    requires |line| < |s.handshakeBuffer + chunk|
    ensures var t := Step(cfg, s, Data(chunk));
      if |s.handshakeBuffer + chunk| > MAX_HANDSHAKE_BYTES then t.outcome == Rejected(TRANSPORT)
      else Fed(cfg, t, reply, (s.handshakeBuffer + chunk)[|line| + 1..])
  {
    AfterTheLine(line, FrameOf(cfg, reply), s.handshakeBuffer + chunk);
    ShakenIsFed(cfg, s, reply, chunk, |line|, (s.handshakeBuffer + chunk)[|line| + 1..]);
  }

  lemma ShakenIsFed<V(!new), R>(cfg: Config<V, R>, s: State<R>, reply: V, chunk: bytes, n: nat, rest: bytes)
    requires Lossless(cfg.json) && |FrameOf(cfg, reply)| <= MAX_GUEST_FRAME_BYTES && RequestFits(cfg)
    requires s.handshake && s.outcome.Pending? && s.frameBuffer == []
    requires n < |s.handshakeBuffer + chunk| && n == LineLength(s.handshakeBuffer + chunk)
    requires HandshakeAccepted((s.handshakeBuffer + chunk)[..n])
    requires rest == (s.handshakeBuffer + chunk)[n + 1..] && rest <= FrameOf(cfg, reply)
    ensures var t := Shake(cfg, s, chunk);
      if |s.handshakeBuffer + chunk| > MAX_HANDSHAKE_BYTES then t.outcome == Rejected(TRANSPORT)
      else Fed(cfg, t, reply, rest)
  {
    ShakeAtTheLine(cfg, s, chunk, n);
    if |s.handshakeBuffer + chunk| <= MAX_HANDSHAKE_BYTES { ReplyBehindTheLine(cfg, s, reply, rest); }
  }

  lemma ReplyBehindTheLine<V(!new), R>(cfg: Config<V, R>, s: State<R>, reply: V, rest: bytes)
    requires Lossless(cfg.json) && |FrameOf(cfg, reply)| <= MAX_GUEST_FRAME_BYTES && RequestFits(cfg)
    requires s.outcome.Pending? && s.frameBuffer == [] && rest <= FrameOf(cfg, reply)
    ensures var u := SendRequest(cfg, s.(handshakeBuffer := [], handshake := false));
      Fed(cfg, if rest == [] then u else ConsumeFrames(cfg, u, rest), reply, rest)
  {
    var u := SendRequest(cfg, s.(handshakeBuffer := [], handshake := false));
    if rest != [] {
      assert [] + rest == rest;
      FeedingOneChunk(cfg, u, reply, [], rest);
    }
  }

  lemma ShakeAtTheLine<V, R>(cfg: Config<V, R>, s: State<R>, chunk: bytes, n: nat)
    requires s.handshake && s.outcome.Pending?
    requires n < |s.handshakeBuffer + chunk| && n == LineLength(s.handshakeBuffer + chunk)
    requires HandshakeAccepted((s.handshakeBuffer + chunk)[..n])
    ensures var rest := (s.handshakeBuffer + chunk)[n + 1..];
      var u := SendRequest(cfg, s.(handshakeBuffer := [], handshake := false));
      if |s.handshakeBuffer + chunk| > MAX_HANDSHAKE_BYTES then Shake(cfg, s, chunk).outcome == Rejected(TRANSPORT)
      else Shake(cfg, s, chunk) == if rest == [] then u else ConsumeFrames(cfg, u, rest)
  {
  }

  lemma AfterTheLine(line: bytes, frame: bytes, buffer: bytes)
    requires NEWLINE !in line && |line| < |buffer| && buffer <= line + [NEWLINE] + frame
    ensures LineLength(buffer) == |line| && buffer[..|line|] == line
    ensures buffer[|line| + 1..] <= frame
  {
    var whole := line + [NEWLINE] + frame;
    assert buffer == whole[..|buffer|];
    assert buffer[..|line|] == line && buffer[|line|] == NEWLINE;
    LineLengthAt(buffer, |line|);
    assert frame == whole[|line| + 1..];
    assert buffer[|line| + 1..] == frame[..|buffer| - |line| - 1];
  }

  /** Over a vsock endpoint, with the handshake line and the reply cut up in any
      way: the call gets its result exactly when the bytes up to the end of the
      chunk that completes the handshake stay within the handshake limit. */
  lemma VsockReplySettles<V(!new), R>(cfg: Config<V, R>, reply: V, line: bytes,
                                      before: seq<bytes>, chunk: bytes, after: seq<bytes>)
    requires Lossless(cfg.json) && |FrameOf(cfg, reply)| <= MAX_GUEST_FRAME_BYTES
    requires cfg.vsock && RequestFits(cfg) && HandshakeAccepted(line) && NEWLINE !in line
    requires Concat(before) <= line && |line| < |Concat(before) + chunk|
    requires Concat(before) + chunk + Concat(after) == line + [NEWLINE] + FrameOf(cfg, reply)
    ensures var s := Run(cfg, Start(cfg), [Connected] + (Arrivals(before) + ([Data(chunk)] + Arrivals(after))));
      s.outcome == if |Concat(before) + chunk| <= MAX_HANDSHAKE_BYTES then Verdict(cfg, reply)
                   else Rejected(TRANSPORT)
  {
    var s := Start(cfg);
    HandshakeThenReply(cfg, s, reply, line, before, chunk, after);
    assert ([Connected] + (Arrivals(before) + ([Data(chunk)] + Arrivals(after))))[1..] ==
           Arrivals(before) + ([Data(chunk)] + Arrivals(after));
  }

  lemma HandshakeThenReply<V(!new), R>(cfg: Config<V, R>, s: State<R>, reply: V, line: bytes,
                                       before: seq<bytes>, chunk: bytes, after: seq<bytes>)
    requires Lossless(cfg.json) && |FrameOf(cfg, reply)| <= MAX_GUEST_FRAME_BYTES && RequestFits(cfg)
    requires HandshakeAccepted(line) && NEWLINE !in line
    requires s.handshake && s.outcome.Pending? && s.frameBuffer == [] && s.handshakeBuffer == []
    requires Concat(before) <= line && |line| < |Concat(before) + chunk|
    requires Concat(before) + chunk + Concat(after) == line + [NEWLINE] + FrameOf(cfg, reply)
    ensures var t := Run(cfg, s, Arrivals(before) + ([Data(chunk)] + Arrivals(after)));
      t.outcome == if |Concat(before) + chunk| <= MAX_HANDSHAKE_BYTES then Verdict(cfg, reply)
                   else Rejected(TRANSPORT)
  {
    var tail := [Data(chunk)] + Arrivals(after);
    RunInTwo(cfg, s, Arrivals(before), tail);
    assert s.handshakeBuffer + Concat(before) == Concat(before) == line[..|Concat(before)|];
    HandshakeWaits(cfg, s, before);
    var t := Run(cfg, s, Arrivals(before));
    if |Concat(before)| > MAX_HANDSHAKE_BYTES {
      SettlesOnce(cfg, t, tail);
    } else {
      LineThenReply(cfg, t, reply, line, chunk, after);
    }
  }

  lemma LineThenReply<V(!new), R>(cfg: Config<V, R>, s: State<R>, reply: V, line: bytes, chunk: bytes, after: seq<bytes>)
    requires Lossless(cfg.json) && |FrameOf(cfg, reply)| <= MAX_GUEST_FRAME_BYTES && RequestFits(cfg)
    requires HandshakeAccepted(line) && NEWLINE !in line
    requires s.handshake && s.outcome.Pending? && s.frameBuffer == []
    requires |line| < |s.handshakeBuffer + chunk|
    requires s.handshakeBuffer + chunk + Concat(after) == line + [NEWLINE] + FrameOf(cfg, reply)
    ensures var t := Run(cfg, s, [Data(chunk)] + Arrivals(after));
      t.outcome == if |s.handshakeBuffer + chunk| <= MAX_HANDSHAKE_BYTES then Verdict(cfg, reply)
                   else Rejected(TRANSPORT)
  {
    var head := s.handshakeBuffer + chunk;
    var whole := line + [NEWLINE] + FrameOf(cfg, reply);
    assert head == whole[..|head|];
    HandshakeCompletes(cfg, s, reply, line, chunk);
    var u := Step(cfg, s, Data(chunk));
    assert ([Data(chunk)] + Arrivals(after))[1..] == Arrivals(after);
    if |head| > MAX_HANDSHAKE_BYTES {
      SettlesOnce(cfg, u, Arrivals(after));
    } else {
      var rest := head[|line| + 1..];
      assert rest + Concat(after) == whole[|line| + 1..] == FrameOf(cfg, reply);
      FeedingAReply(cfg, u, reply, rest, after);
    }
  }
}
