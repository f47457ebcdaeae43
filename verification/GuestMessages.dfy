/** The file and log messages of the guest protocol, which carry up to 256 KiB of data in
    base64: each is one line, always fits one frame, and is read back as it was sent
    (src/guest-protocol.ts, ops/guest-control/src). */
module GuestMessages {
  import opened Basics
  import opened GuestProtocol
  import opened GuestChannel
  import opened JsonRoundTrip
  import opened JsonText
  import Base64

  const MAX_CHUNK_BYTES := 256 * 1024
  const MAX_PATH_UNITS := 1024

  predicate WideOrNull(n: Option<int>) {
    n.Some? ==> Wide(n.value)
  }

  lemma NullableSize(n: Option<int>)
    requires WideOrNull(n)
    ensures Size(Nullable(n)) <= 21
  {
    if n.Some? {
      NumberSize(n.value);
    }
  }

  /** File contents and log data travel in base64, whose symbols are plain. */
  function InBase64(data: bytes): (v: Value)
    ensures IsPlain(Base64.Encode(data)) && v == Plain(Base64.Encode(data))
  {
    Base64.EncodedSymbols(data);
    assert forall i :: 0 <= i < |Base64.Encode(data)| ==> Base64.Encode(data)[i] in Base64.Encode(data);
    Plain(Base64.Encode(data))
  }

  lemma DataSize(data: bytes)
    requires |data| <= MAX_CHUNK_BYTES
    ensures Size(InBase64(data)) <= 349_530
  {
    Base64.EncodedLength(data);
  }

  predicate ValidId(id: plain) {
    1 <= |id| <= 64
  }

  predicate ValidPath(path: seq<unit16>) {
    1 <= |path| <= MAX_PATH_UNITS
  }

  function FsWriteRequest(id: plain, path: seq<unit16>, offset: int, data: bytes, truncate: bool): Value {
    Object([Field("version", Number(1)), Field("id", Plain(id)), Field("operation", Plain("fs.write")),
            Field("path", Text(path)), Field("offset", Number(offset)),
            Field("data", InBase64(data)), Field("truncate", Flag(truncate))])
  }

  function FsReadRequest(id: plain, path: seq<unit16>, offset: int, maxBytes: int): Value {
    Object([Field("version", Number(1)), Field("id", Plain(id)), Field("operation", Plain("fs.read")),
            Field("path", Text(path)), Field("offset", Number(offset)), Field("maxBytes", Number(maxBytes))])
  }

  function JobStatusRequest(id: plain, jobId: plain, logOffset: int, maxBytes: int): Value {
    Object([Field("version", Number(1)), Field("id", Plain(id)), Field("operation", Plain("job.status")),
            Field("jobId", Plain(jobId)), Field("logOffset", Number(logOffset)), Field("maxBytes", Number(maxBytes))])
  }

  function Reply(id: plain, result: Value): Value {
    Object([Field("version", Number(1)), Field("id", Plain(id)), Field("ok", Flag(true)), Field("result", result)])
  }

  function FsReadResult(path: seq<unit16>, offset: int, nextOffset: int, size: int, eof: bool, data: bytes): Value {
    Object([Field("path", Text(path)), Field("offset", Number(offset)), Field("nextOffset", Number(nextOffset)),
            Field("size", Number(size)), Field("eof", Flag(eof)), Field("data", InBase64(data))])
  }

  function FsWriteResult(path: seq<unit16>, size: int, nextOffset: int, usedBytes: int, quotaBytes: int): Value {
    Object([Field("path", Text(path)), Field("size", Number(size)), Field("nextOffset", Number(nextOffset)),
            Field("usedBytes", Number(usedBytes)), Field("quotaBytes", Number(quotaBytes))])
  }

  datatype StatusNumbers = StatusNumbers(
    createdAt: int, startedAt: Option<int>, finishedAt: Option<int>, exitCode: Option<int>, signal: Option<int>,
    timeoutMs: int, offset: int, nextOffset: int, endOffset: int)

  function Nullable(n: Option<int>): Value {
    if n.None? then Null else Number(n.value)
  }

  function JobStatusResult(jobId: plain, state: plain, n: StatusNumbers, logs: Value): Value {
    Object([Field("jobId", Plain(jobId)), Field("state", Plain(state)), Field("createdAt", Number(n.createdAt)),
            Field("startedAt", Nullable(n.startedAt)), Field("finishedAt", Nullable(n.finishedAt)),
            Field("exitCode", Nullable(n.exitCode)), Field("signal", Nullable(n.signal)),
            Field("timeoutMs", Number(n.timeoutMs)), Field("logs", logs)])
  }

  function LogChunk(n: StatusNumbers, truncatedBefore: bool, eof: bool, data: bytes): Value {
    Object([Field("offset", Number(n.offset)), Field("nextOffset", Number(n.nextOffset)),
            Field("endOffset", Number(n.endOffset)), Field("truncatedBefore", Flag(truncatedBefore)),
            Field("eof", Flag(eof)), Field("encoding", Plain("base64")), Field("data", InBase64(data))])
  }

  /** What stands in place of the log chunk when the cursor lies past the end. */
  function LogRefusal(message: plain): Value {
    Object([Field("error", Plain(message))])
  }

  predicate AllWide(n: StatusNumbers) {
    && Wide(n.createdAt) && WideOrNull(n.startedAt) && WideOrNull(n.finishedAt) && WideOrNull(n.exitCode) && WideOrNull(n.signal)
    && Wide(n.timeoutMs) && Wide(n.offset) && Wide(n.nextOffset) && Wide(n.endOffset)
  }

  // ---- Frames --------------------------------------------------------------

  /** The message's text holds no newline, and with one behind it is a frame. */
  ghost predicate FitsInFrame(v: Value) {
    NEWLINE !in Render(v) && EncodeGuestFrame(MessageJson(), AsMessage(v)) == Ok(Render(v) + [NEWLINE])
  }

  lemma SmallFits(v: Value)
    requires Size(v) + 1 <= MAX_GUEST_FRAME_BYTES
    ensures FitsInFrame(v)
  {
    Rendered(v);
    NormalTwice(v);
  }

  /** Over a Unix endpoint a request that fits is written whole, once connected. */
  lemma FittingRequestIsWritten<R>(cfg: Config<Message, R>, request: Value)
    requires cfg.json == MessageJson() && cfg.request == AsMessage(request) && FitsInFrame(request) && !cfg.vsock
    ensures var s := Step(cfg, Start(cfg), Connected);
      s.sent == [Render(request) + [NEWLINE]] && s.outcome.Pending?
  {
  }

  /** Then any reply that fits, however it is cut into chunks, settles the call with its
      result at the last byte and not before. */
  lemma FittingReplySettles<R>(cfg: Config<Message, R>, request: Value, reply: Value, chunks: seq<bytes>)
    requires cfg.json == MessageJson() && cfg.request == AsMessage(request) && !cfg.vsock
    requires FitsInFrame(request) && FitsInFrame(reply) && Concat(chunks) <= Render(reply) + [NEWLINE]
    ensures var s := Run(cfg, Start(cfg), [Connected] + Arrivals(chunks));
      s.outcome == if Concat(chunks) == Render(reply) + [NEWLINE] then Verdict(cfg, AsMessage(reply)) else Pending
  {
    MessagesAreLossless();
    NormalTwice(reply);
    UnixReplySettles(cfg, AsMessage(reply), chunks);
  }

  function Lines(messages: seq<Value>): (lines: seq<Line<Message>>)
    ensures |lines| == |messages| && forall i :: 0 <= i < |messages| ==> lines[i] == Some(AsMessage(messages[i]))
  {
    seq(|messages|, i requires 0 <= i < |messages| => Some(AsMessage(messages[i])))
  }

  /** Messages that fit, written one after the other and cut into chunks of at most a
      frame, come out of the framing as they are, in order. */
  lemma MessagesArriveInOrder(messages: seq<Value>, chunks: seq<bytes>)
    requires forall i :: 0 <= i < |messages| ==> FitsInFrame(messages[i])
    requires Concat(chunks) == StreamBytes(MessageJson(), Lines(messages))
    requires forall i :: 0 <= i < |chunks| ==> |chunks[i]| <= MAX_GUEST_FRAME_BYTES
    ensures ReceiveAll(MessageJson(), Ok(Decoded([], [])), chunks) == Ok(Decoded(Values(Lines(messages)), []))
    ensures Values(Lines(messages)) == seq(|messages|, i requires 0 <= i < |messages| => AsMessage(messages[i]))
  {
    MessagesAreLossless();
    forall i | 0 <= i < |messages| ensures |LineBytes(MessageJson(), Lines(messages)[i])| <= MAX_GUEST_FRAME_BYTES {
      NormalTwice(messages[i]);
    }
    EveryChunkingYieldsTheFrames(MessageJson(), Lines(messages), chunks);
    ValuesOfLines(Lines(messages));
  }

  lemma {:induction false} ValuesOfLines<V>(lines: seq<Line<V>>)
    requires forall i :: 0 <= i < |lines| ==> lines[i].Some?
    ensures |Values(lines)| == |lines| && forall i :: 0 <= i < |lines| ==> Values(lines)[i] == lines[i].value
    decreases |lines|
  {
    if lines != [] { ValuesOfLines(lines[1..]); }
  }

  // A concrete reply over a vsock endpoint: a text of 130 letters.

  const LETTERS: plain := seq(130, _ => 'a')
  const ACCEPTED: bytes := [79, 75, 32, 49]

  lemma LettersAreLong()
    ensures |Render(Plain(LETTERS))| == 132 && FitsInFrame(Plain(LETTERS))
  {
    SmallFits(Plain(LETTERS));
  }

  /** It is lost when it comes in one chunk with the handshake, and received when it comes
      behind it. */
  lemma AnExampleOfALostReply<R>(cfg: Config<Message, R>)
    requires cfg.json == MessageJson() && cfg.vsock && RequestFits(cfg)
    ensures var reply := Render(Plain(LETTERS)) + [NEWLINE]; var line := ACCEPTED + [NEWLINE];
      && Run(cfg, Start(cfg), [Connected, Data(line + reply)]).outcome == Rejected(TRANSPORT)
      && Run(cfg, Start(cfg), [Connected, Data(line), Data(reply)]).outcome == Verdict(cfg, AsMessage(Plain(LETTERS)))
  {
    var m := AsMessage(Plain(LETTERS));
    var reply, line := Render(Plain(LETTERS)) + [NEWLINE], ACCEPTED + [NEWLINE];
    MessagesAreLossless();
    LettersAreLong();
    NormalTwice(Plain(LETTERS));
    InOneChunk(cfg, m, line, reply);
    InTwoChunks(cfg, m, line, reply);
  }

  lemma InOneChunk<R>(cfg: Config<Message, R>, m: Message, line: bytes, reply: bytes)
    requires cfg.vsock && RequestFits(cfg) && Lossless(cfg.json)
    requires line == ACCEPTED + [NEWLINE] && reply == FrameOf(cfg, m) && 124 <= |reply| <= MAX_GUEST_FRAME_BYTES
    ensures Run(cfg, Start(cfg), [Connected, Data(line + reply)]).outcome == Rejected(TRANSPORT)
  {
    var none: seq<bytes> := [];
    assert Concat(none) == [] && Arrivals(none) == [];
    assert [] + (line + reply) + [] == ACCEPTED + [NEWLINE] + reply;
    VsockReplySettles(cfg, m, ACCEPTED, none, line + reply, none);
    assert [Connected] + (Arrivals(none) + ([Data(line + reply)] + Arrivals(none))) == [Connected, Data(line + reply)];
  }

  lemma InTwoChunks<R>(cfg: Config<Message, R>, m: Message, line: bytes, reply: bytes)
    requires cfg.vsock && RequestFits(cfg) && Lossless(cfg.json)
    requires line == ACCEPTED + [NEWLINE] && reply == FrameOf(cfg, m) && |reply| <= MAX_GUEST_FRAME_BYTES
    ensures Run(cfg, Start(cfg), [Connected, Data(line), Data(reply)]).outcome == Verdict(cfg, m)
  {
    var none: seq<bytes> := [];
    assert Concat(none) == [] && Arrivals(none) == [];
    assert Concat([reply]) == reply && Arrivals([reply]) == [Data(reply)];
    assert [] + line + reply == ACCEPTED + [NEWLINE] + reply;
    VsockReplySettles(cfg, m, ACCEPTED, none, line, [reply]);
    assert [Connected] + (Arrivals(none) + ([Data(line)] + Arrivals([reply]))) == [Connected, Data(line), Data(reply)];
  }

  /** One field may be large; the others are small. */
  lemma {:induction false} FieldsWithin(fields: seq<Field>, heavy: nat, small: nat, large: nat)
    requires forall i :: 0 <= i < |fields| && i != heavy ==> FieldSize(fields[i]) <= small
    requires heavy < |fields| ==> FieldSize(fields[heavy]) <= large
    ensures FieldsSize(fields) <= |fields| * small + if heavy < |fields| then large else 0
    decreases |fields|
  {
    if fields != [] {
      var next := if heavy == 0 then |fields| else heavy - 1;
      FieldsWithin(fields[1..], next, small, large);
      OneMore(|fields[1..]|, small);
    }
  }

  lemma OneMore(n: nat, small: nat)
    ensures (n + 1) * small == n * small + small
  {
  }

  lemma FsWriteRequestFits(id: plain, path: seq<unit16>, offset: int, data: bytes, truncate: bool)
    requires ValidId(id) && ValidPath(path) && Wide(offset) && |data| <= MAX_CHUNK_BYTES
    ensures FitsInFrame(FsWriteRequest(id, path, offset, data, truncate))
  {
    NumberSize(offset);
    TextSize(path);
    DataSize(data);
    FieldsWithin(FsWriteRequest(id, path, offset, data, truncate).fields, 5, 6160, 349_540);
    SmallFits(FsWriteRequest(id, path, offset, data, truncate));
  }

  lemma SmallRequestsFit(id: plain, path: seq<unit16>, jobId: plain, offset: int, maxBytes: int)
    requires ValidId(id) && ValidPath(path) && |jobId| == 36 && Wide(offset) && Wide(maxBytes)
    ensures FitsInFrame(FsReadRequest(id, path, offset, maxBytes))
    ensures FitsInFrame(JobStatusRequest(id, jobId, offset, maxBytes))
  {
    NumberSize(offset);
    NumberSize(maxBytes);
    TextSize(path);
    FieldsWithin(FsReadRequest(id, path, offset, maxBytes).fields, 3, 800, 6200);
    SmallFits(FsReadRequest(id, path, offset, maxBytes));
    FieldsWithin(JobStatusRequest(id, jobId, offset, maxBytes).fields, 3, 800, 800);
    SmallFits(JobStatusRequest(id, jobId, offset, maxBytes));
  }

  lemma FsWriteReplyFits(id: plain, path: seq<unit16>, size: int, nextOffset: int, usedBytes: int, quotaBytes: int)
    requires ValidId(id) && ValidPath(path) && Wide(size) && Wide(nextOffset) && Wide(usedBytes) && Wide(quotaBytes)
    ensures FitsInFrame(Reply(id, FsWriteResult(path, size, nextOffset, usedBytes, quotaBytes)))
  {
    NumberSize(size);
    NumberSize(nextOffset);
    NumberSize(usedBytes);
    NumberSize(quotaBytes);
    TextSize(path);
    var result := FsWriteResult(path, size, nextOffset, usedBytes, quotaBytes);
    FieldsWithin(result.fields, 0, 200, 6200);
    ReplyWithin(id, result, 8000);
    SmallFits(Reply(id, result));
  }

  lemma ReplyWithin(id: plain, result: Value, size: nat)
    requires ValidId(id) && Size(result) <= size
    ensures Size(Reply(id, result)) <= size + 4000
  {
    FieldsWithin(Reply(id, result).fields, 3, 900, size + 100);
  }

  lemma FsReadReplyFits(id: plain, path: seq<unit16>, offset: int, nextOffset: int, size: int, eof: bool, data: bytes)
    requires ValidId(id) && ValidPath(path) && |data| <= MAX_CHUNK_BYTES
    requires Wide(offset) && Wide(nextOffset) && Wide(size)
    ensures FitsInFrame(Reply(id, FsReadResult(path, offset, nextOffset, size, eof, data)))
  {
    NumberSize(offset);
    NumberSize(nextOffset);
    NumberSize(size);
    TextSize(path);
    DataSize(data);
    var result := FsReadResult(path, offset, nextOffset, size, eof, data);
    FieldsWithin(result.fields, 5, 6160, 349_540);
    ReplyWithin(id, result, 387_000);
    SmallFits(Reply(id, result));
  }

  lemma LogChunkSize(n: StatusNumbers, truncatedBefore: bool, eof: bool, data: bytes)
    requires AllWide(n) && |data| <= MAX_CHUNK_BYTES
    ensures Size(LogChunk(n, truncatedBefore, eof, data)) <= 350_400
  {
    NumberSize(n.offset);
    NumberSize(n.nextOffset);
    NumberSize(n.endOffset);
    DataSize(data);
    FieldsWithin(LogChunk(n, truncatedBefore, eof, data).fields, 6, 100, 349_540);
  }

  lemma StatusReplyFits(id: plain, jobId: plain, state: plain, n: StatusNumbers, logs: Value)
    requires ValidId(id) && |jobId| == 36 && |state| <= 9 && AllWide(n) && Size(logs) <= 350_400
    ensures FitsInFrame(Reply(id, JobStatusResult(jobId, state, n, logs)))
  {
    NumberSize(n.createdAt);
    NullableSize(n.startedAt);
    NullableSize(n.finishedAt);
    NullableSize(n.exitCode);
    NullableSize(n.signal);
    NumberSize(n.timeoutMs);
    var result := JobStatusResult(jobId, state, n, logs);
    FieldsWithin(result.fields, 8, 100, 350_500);
    ReplyWithin(id, result, 352_000);
    SmallFits(Reply(id, result));
  }

  lemma JobStatusReplyFits(id: plain, jobId: plain, state: plain, n: StatusNumbers, truncatedBefore: bool,
                           eof: bool, data: bytes, message: plain)
    requires ValidId(id) && |jobId| == 36 && |state| <= 9 && AllWide(n) && |data| <= MAX_CHUNK_BYTES && |message| <= 1024
    ensures FitsInFrame(Reply(id, JobStatusResult(jobId, state, n, LogChunk(n, truncatedBefore, eof, data))))
    ensures FitsInFrame(Reply(id, JobStatusResult(jobId, state, n, LogRefusal(message))))
  {
    LogChunkSize(n, truncatedBefore, eof, data);
    StatusReplyFits(id, jobId, state, n, LogChunk(n, truncatedBefore, eof, data));
    FieldsWithin(LogRefusal(message).fields, 0, 0, 1100);
    StatusReplyFits(id, jobId, state, n, LogRefusal(message));
  }
}
