/** The buffer in front of the inspector: it grows with every chunk the client sends
    and settles once, with the verdict the whole stream would get in one piece. */
module ClientHelloReceiver {
  import opened Basics
  import opened ClientHello
  import opened TlsInspector
  import opened TlsTheorems

  datatype ReceiveError = Tls(error: TlsError) | ClosedEarly | TimedOut | StreamFailed

  datatype Settlement = Resolved(received: bytes) | Failure(cause: ReceiveError)

  datatype Event = Data(chunk: bytes) | End | Close | StreamError | Timeout

  datatype Progress = Progress(buffered: bytes, settled: Option<Settlement>)

  datatype Limits = Limits(hostname: bytes, maxBytes: int, norm: Normalize)

  /** What looking at the buffer settles. */
  function Verdict(buffered: bytes, limits: Limits): Option<Settlement> {
    match Inspect(buffered, limits.hostname, limits.maxBytes, limits.norm)
    case Incomplete => None
    case Complete(_) => Some(Resolved(buffered))
    case Failed(e) => Some(Failure(Tls(e)))
  }

  function Begin(initial: bytes, limits: Limits): Progress {
    if limits.maxBytes < 256 || |initial| > limits.maxBytes
    then Progress([], Some(Failure(Tls(ClientHelloTooLarge))))
    else Progress(initial, Verdict(initial, limits))
  }

  /** Nothing that happens after settling changes the outcome. */
  function After(p: Progress, event: Event, limits: Limits): Progress {
    if p.settled.Some? then p
    else match event
      case Data(chunk) =>
        if |chunk| > limits.maxBytes - |p.buffered| then p.(settled := Some(Failure(Tls(ClientHelloTooLarge))))
        else Progress(p.buffered + chunk, Verdict(p.buffered + chunk, limits))
      case End => p.(settled := Some(Failure(ClosedEarly)))
      case Close => p.(settled := Some(Failure(ClosedEarly)))
      case StreamError => p.(settled := Some(Failure(StreamFailed)))
      case Timeout => p.(settled := Some(Failure(TimedOut)))
  }

  function AfterChunks(p: Progress, chunks: seq<bytes>, limits: Limits): Progress
    decreases |chunks|
  {
    if chunks == [] then p else AfterChunks(After(p, Data(chunks[0]), limits), chunks[1..], limits)
  }

  class Receiver {
    const limits: Limits
    var buffered: bytes
    var settled: Option<Settlement>

    ghost function Model(): Progress
      reads this
    {
      Progress(buffered, settled)
    }

    constructor (initial: bytes, limits: Limits)
      ensures this.limits == limits && Model() == Begin(initial, limits)
    {
      this.limits := limits;
      buffered, settled := [], None;
      new;
      if limits.maxBytes < 256 || |initial| > limits.maxBytes {
        settled := Some(Failure(Tls(ClientHelloTooLarge)));
      } else {
        buffered := initial;
        Look();
      }
    }

    /** Inspects the buffer and settles unless more bytes are needed. */
    method Look()
      requires settled.None?
      modifies this`settled
      ensures settled == Verdict(buffered, limits)
    {
      var outcome := InspectTlsClientHello(buffered, limits.hostname, limits.maxBytes, limits.norm);
      match outcome
      case Incomplete =>
      case Complete(_) => settled := Some(Resolved(buffered));
      case Failed(e) => settled := Some(Failure(Tls(e)));
    }

    method Fail(cause: ReceiveError)
      modifies this`settled
      ensures settled == if old(settled).Some? then old(settled) else Some(Failure(cause))
    {
      if settled.Some? { return; }
      settled := Some(Failure(cause));
    }

    method Handle(event: Event)
      modifies this
      ensures Model() == After(old(Model()), event, limits)
    {
      if settled.Some? { return; }
      match event
      case Data(chunk) =>
        if |chunk| > limits.maxBytes - |buffered| {
          Fail(Tls(ClientHelloTooLarge));
        } else {
          buffered := buffered + chunk;
          Look();
        }
      case End => Fail(ClosedEarly);
      case Close => Fail(ClosedEarly);
      case StreamError => Fail(StreamFailed);
      case Timeout => Fail(TimedOut);
    }
  }

  /** The settlement a stream deserves: a prefix of it that holds the whole hello, the
      error the inspector finds in it, or none while it is incomplete. */
  ghost predicate Settles(stream: bytes, settled: Option<Settlement>, limits: Limits) {
    match Inspect(stream, limits.hostname, limits.maxBytes, limits.norm)
    case Incomplete => settled.None?
    case Failed(e) => settled == Some(Failure(Tls(e)))
    case Complete(count) =>
      settled.Some? && settled.value.Resolved? && settled.value.received <= stream && count <= |settled.value.received|
  }

  lemma LookingSettles(part: bytes, rest: bytes, limits: Limits)
    requires limits.maxBytes >= 256 && |part + rest| <= limits.maxBytes
    requires Verdict(part, limits).Some?
    ensures Settles(part + rest, Verdict(part, limits), limits)
  {
    VerdictIsStable(part, rest, limits.hostname, limits.maxBytes, limits.norm);
    if Inspect(part, limits.hostname, limits.maxBytes, limits.norm).Complete? {
      PrefixesOfAcceptedInput(part, |part|, limits.hostname, limits.maxBytes, limits.norm);
      assert part[..|part|] == part;
    }
  }

  lemma {:induction false} SettledStays(p: Progress, chunks: seq<bytes>, limits: Limits)
    requires p.settled.Some?
    ensures AfterChunks(p, chunks, limits) == p
    decreases |chunks|
  {
    if chunks != [] { SettledStays(p, chunks[1..], limits); }
  }

  /** However a stream within the limit is cut, it is settled as it would be in one
      piece; and while it is incomplete, the buffer holds all of it. */
  lemma {:induction false} ChunkingDoesNotMatter(initial: bytes, chunks: seq<bytes>, limits: Limits)
    requires limits.maxBytes >= 256 && |initial + Concat(chunks)| <= limits.maxBytes
    ensures var p := AfterChunks(Begin(initial, limits), chunks, limits);
      Settles(initial + Concat(chunks), p.settled, limits)
      && (p.settled.None? ==> p.buffered == initial + Concat(chunks))
    decreases |chunks|
  {
    var p := Begin(initial, limits);
    if chunks == [] {
      assert initial + Concat(chunks) == initial;
      if p.settled.Some? { LookingSettles(initial, [], limits); }
    } else if p.settled.Some? {
      LookingSettles(initial, Concat(chunks), limits);
      SettledStays(p, chunks, limits);
    } else {
      Regroup(initial, chunks[0], Concat(chunks[1..]));
      assert After(p, Data(chunks[0]), limits) == Begin(initial + chunks[0], limits);
      ChunkingDoesNotMatter(initial + chunks[0], chunks[1..], limits);
    }
  }

  /** The inspector has come to a verdict on what `k` chunks brought, within the limit. */
  ghost predicate SettledAfter(initial: bytes, chunks: seq<bytes>, k: nat, settled: Option<Settlement>, limits: Limits) {
    && k <= |chunks| && |initial + Concat(chunks[..k])| <= limits.maxBytes
    && settled.Some? && Settles(initial + Concat(chunks[..k]), settled, limits)
  }

  /** A stream that passes the limit is settled: as too large, unless the inspector had come
      to a verdict before. */
  lemma {:induction false} TooMuchIsSettled(initial: bytes, chunks: seq<bytes>, limits: Limits)
    requires |initial + Concat(chunks)| > limits.maxBytes || limits.maxBytes < 256
    ensures var settled := AfterChunks(Begin(initial, limits), chunks, limits).settled;
      || settled == Some(Failure(Tls(ClientHelloTooLarge)))
      || exists k: nat :: SettledAfter(initial, chunks, k, settled, limits)
    decreases |chunks|
  {
    var p := Begin(initial, limits);
    assert initial + Concat(chunks[..0]) == initial;
    if p.settled.Some? {
      SettledStays(p, chunks, limits);
      if limits.maxBytes >= 256 && |initial| <= limits.maxBytes {
        LookingSettles(initial, [], limits);
        assert initial + [] == initial;
        assert SettledAfter(initial, chunks, 0, p.settled, limits);
      }
    } else {
      var next := initial + chunks[0];
      Regroup(initial, chunks[0], Concat(chunks[1..]));
      if |next| > limits.maxBytes {
        SettledStays(After(p, Data(chunks[0]), limits), chunks[1..], limits);
      } else {
        assert After(p, Data(chunks[0]), limits) == Begin(next, limits);
        TooMuchIsSettled(next, chunks[1..], limits);
        LaterChunks(initial, chunks, AfterChunks(p, chunks, limits).settled, limits);
      }
    }
  }

  lemma LaterChunks(initial: bytes, chunks: seq<bytes>, settled: Option<Settlement>, limits: Limits)
    requires chunks != []
    ensures (exists k: nat :: SettledAfter(initial + chunks[0], chunks[1..], k, settled, limits)) ==>
      exists k: nat :: SettledAfter(initial, chunks, k, settled, limits)
  {
    if k: nat :| SettledAfter(initial + chunks[0], chunks[1..], k, settled, limits) {
      assert chunks[..k + 1][0] == chunks[0] && chunks[..k + 1][1..] == chunks[1..][..k];
      Regroup(initial, chunks[0], Concat(chunks[1..][..k]));
      assert SettledAfter(initial, chunks, k + 1, settled, limits);
    }
  }

  /** The end of the stream, an error and the timeout settle what is not settled, each with
      its own failure. */
  lemma EndingsSettle(p: Progress, event: Event, limits: Limits)
    requires !event.Data?
    ensures var q := After(p, event, limits);
      && q.buffered == p.buffered && q.settled.Some?
      && (p.settled.Some? ==> q.settled == p.settled)
      && (p.settled.None? ==>
            && q.settled.value.Failure?
            && (q.settled.value.cause == TimedOut <==> event.Timeout?)
            && (q.settled.value.cause == ClosedEarly <==> event.End? || event.Close?)
            && (q.settled.value.cause == StreamFailed <==> event.StreamError?))
  {
  }
}
