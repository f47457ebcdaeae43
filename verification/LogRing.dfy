/** Bounded memories of an unbounded output: the job log with absolute offsets, read by
    cursor, and the terminal agent's history buffer. Both keep the last bytes written. */
module LogRing {
  import opened Basics

  const MAX_LOG_BYTES: nat := 1024 * 1024
  const MAX_LOG_CHUNK_BYTES: nat := 256 * 1024

  /** The last `n` elements of `s`, or all of it. */
  function Last<T>(s: seq<T>, n: nat): (t: seq<T>)
    ensures |t| == Min(|s|, n) && t == s[|s| - |t|..]
  {
    if |s| <= n then s else s[|s| - n..]
  }

  /** What falls out early would have fallen out anyway. */
  lemma LastOfLast<T>(s: seq<T>, more: seq<T>, n: nat)
    ensures Last(Last(s, n) + more, n) == Last(s + more, n)
  {
    if more == [] {
      assert s + more == s && Last(s, n) + more == Last(s, n);
    } else if |s| > n {
      DropOfConcat(s, more, |s| - n);
      DropTwice(s + more, |s| - n, |more|);
      LastOfLonger(Last(s, n) + more, |more|, n);
      LastOfLonger(s + more, |s| - n + |more|, n);
    }
  }

  lemma LastOfLonger<T>(s: seq<T>, k: nat, n: nat)
    requires |s| == k + n && k > 0
    ensures Last(s, n) == s[k..]
  {
  }

  lemma DropOfConcat<T>(s: seq<T>, more: seq<T>, k: nat)
    requires k <= |s|
    ensures (s + more)[k..] == s[k..] + more
  {
  }

  lemma DropTwice<T>(s: seq<T>, a: nat, b: nat)
    requires a + b <= |s|
    ensures s[a..][b..] == s[a + b..]
  {
  }

  datatype LogChunk = LogChunk(offset: nat, nextOffset: nat, endOffset: nat, truncatedBefore: bool, eof: bool, data: bytes)

  datatype LogError = CursorBeyondEnd

  /** What a reader that asks for `maximum` bytes from `requested` on is owed, given all
      output so far: the retained bytes from there, and whether any were lost. */
  function Slice(output: bytes, requested: nat, maximum: nat, terminal: bool): (r: Result<LogChunk, LogError>)
    ensures r.Ok? <==> requested <= |output|
  {
    if requested > |output| then Err(CursorBeyondEnd)
    else
      var start := |output| - |Last(output, MAX_LOG_BYTES)|;
      var offset := Max(requested, start);
      var next := Min(offset + maximum, |output|);
      Ok(LogChunk(offset, next, |output|, requested < start, terminal && next == |output|, output[offset..next]))
  }

  /** The rule the control plane checks every chunk against. */
  predicate JobLogChunk(c: LogChunk) {
    c.offset <= c.nextOffset <= c.endOffset && |c.data| <= MAX_LOG_CHUNK_BYTES && |c.data| == c.nextOffset - c.offset
  }

  lemma SlicesAreJobLogChunks(output: bytes, requested: nat, maximum: nat, terminal: bool)
    requires requested <= |output| && maximum <= MAX_LOG_CHUNK_BYTES
    ensures JobLogChunk(Slice(output, requested, maximum, terminal).value)
    ensures maximum > 0 && requested < |output| ==> Slice(output, requested, maximum, terminal).value.nextOffset > requested
  {
  }

  /** When a reply must say that bytes were lost, or that nothing follows, and what it
      holds: the output from the cursor or from the last mebibyte on, as far as it was asked. */
  lemma SliceSays(output: bytes, requested: nat, maximum: nat, terminal: bool)
    requires requested <= |output|
    ensures var c := Slice(output, requested, maximum, terminal).value;
      && (c.truncatedBefore <==> |output| > requested + MAX_LOG_BYTES)
      && c.offset == (if c.truncatedBefore then |output| - MAX_LOG_BYTES else requested)
      && |c.data| == Min(maximum, |output| - c.offset) && c.data == output[c.offset..c.offset + |c.data|]
      && c.nextOffset == c.offset + |c.data| && c.endOffset == |output|
      && (c.eof <==> terminal && |output| <= c.offset + maximum)
  {
  }

  class Ring {
    var buf: bytes
    var startOffset: nat
    var endOffset: nat
    ghost var output: bytes

    /** The buffer is the last mebibyte of the output, at its absolute offsets. */
    ghost predicate Valid()
      reads this
    {
      buf == Last(output, MAX_LOG_BYTES) && endOffset == |output| && startOffset == |output| - |buf|
    }

    /** All that was appended to a ring that is as it should be. */
    ghost function Written(): Option<bytes>
      reads this
    {
      if Valid() then Some(output) else None
    }

    constructor ()
      ensures Valid() && output == []
    {
      buf, startOffset, endOffset, output := [], 0, 0, [];
    }

    method Append(chunk: bytes)
      requires Valid()
      modifies this
      ensures Valid() && output == old(output) + chunk
    {
      if chunk == [] { assert output + chunk == output; return; }
      LastOfLast(output, chunk, MAX_LOG_BYTES);
      buf := buf + chunk;
      endOffset := endOffset + |chunk|;
      output := output + chunk;
      var overflow := |buf| - MAX_LOG_BYTES;
      if overflow > 0 {
        buf := buf[overflow..];
        startOffset := startOffset + overflow;
      }
    }

    method Read(requested: nat, maximum: nat, terminal: bool) returns (result: Result<LogChunk, LogError>)
      requires Valid()
      ensures result == Slice(output, requested, maximum, terminal)
    {
      if requested > endOffset { return Err(CursorBeyondEnd); }
      SliceOfBuffer(output, buf, startOffset, requested, maximum, terminal);
      var offset := Max(requested, startOffset);
      var relative := offset - startOffset;
      var end := Min(relative + maximum, |buf|);
      var data := buf[relative..end];
      var nextOffset := offset + |data|;
      result := Ok(LogChunk(offset, nextOffset, endOffset, requested < startOffset, terminal && nextOffset == endOffset, data));
    }
  }

  /** The answer from the retained end, at its offset, is the answer from all output. */
  lemma SliceOfBuffer(output: bytes, buf: bytes, start: nat, requested: nat, maximum: nat, terminal: bool)
    requires buf == Last(output, MAX_LOG_BYTES) && start == |output| - |buf| && requested <= |output|
    ensures var relative := Max(requested, start) - start; var end := Min(relative + maximum, |buf|);
      && 0 <= relative <= end <= |buf|
      && Slice(output, requested, maximum, terminal) ==
           Ok(LogChunk(start + relative, start + end, |output|, requested < start, terminal && start + end == |output|, buf[relative..end]))
  {
    RetainedSlice(output, start, Max(requested, start) - start, maximum);
  }

  /** Bytes taken from the retained end are those at the absolute offsets. */
  lemma RetainedSlice(output: bytes, start: nat, relative: nat, maximum: nat)
    requires start + relative <= |output|
    ensures var end := Min(relative + maximum, |output| - start); var next := Min(start + relative + maximum, |output|);
      relative <= end && next == start + end && output[start..][relative..end] == output[start + relative..next]
  {
    SliceOfSuffix(output, start, relative, Min(relative + maximum, |output| - start));
  }

  // ---- A reader that follows the cursor --------------------------------------

  datatype Event = Appended(chunk: bytes) | Ended | Asked(maximum: nat)

  /** A log being written, and a reader that feeds back `nextOffset`. */
  datatype Session = Session(output: bytes, terminal: bool, cursor: nat, collected: bytes, truncated: bool, eof: bool, refused: bool)

  const START: Session := Session([], false, 0, [], false, false, false)

  function AfterReply(s: Session, reply: Result<LogChunk, LogError>): Session {
    match reply
    case Err(_) => s.(refused := true)
    case Ok(c) => s.(cursor := c.nextOffset, collected := s.collected + c.data, truncated := s.truncated || c.truncatedBefore, eof := s.eof || c.eof)
  }

  /** The writer stops at the terminal state; asking is possible at any time. */
  function After(s: Session, e: Event): Session {
    match e
    case Appended(chunk) => if s.terminal then s else s.(output := s.output + chunk)
    case Ended => s.(terminal := true)
    case Asked(maximum) => AfterReply(s, Slice(s.output, s.cursor, maximum, s.terminal))
  }

  function Following(s: Session, events: seq<Event>): Session
    decreases |events|
  {
    if events == [] then s else Following(After(s, events[0]), events[1..])
  }

  ghost predicate SessionOk(s: Session) {
    && !s.refused && s.cursor <= |s.output|
    && (!s.truncated ==> s.collected == s.output[..s.cursor])
    && (s.eof ==> s.terminal && s.cursor == |s.output|)
  }

  lemma {:induction false} SessionHolds(s: Session, events: seq<Event>)
    requires SessionOk(s)
    ensures SessionOk(Following(s, events))
    decreases |events|
  {
    if events != [] {
      SessionStep(s, events[0]);
      SessionHolds(After(s, events[0]), events[1..]);
    }
  }

  lemma SessionStep(s: Session, e: Event)
    requires SessionOk(s)
    ensures SessionOk(After(s, e))
  {
    match e
    case Appended(chunk) => assert (s.output + chunk)[..s.cursor] == s.output[..s.cursor];
    case Ended =>
    case Asked(maximum) =>
      var c := Slice(s.output, s.cursor, maximum, s.terminal).value;
      if !c.truncatedBefore {
        assert s.output[..c.nextOffset] == s.output[..s.cursor] + s.output[s.cursor..c.nextOffset];
      }
  }

  /** However reads and appends interleave, the reader is never refused; and if no reply
      was truncated it holds exactly the output up to its cursor, and all of it at eof. */
  lemma FollowingReconstructs(events: seq<Event>)
    ensures var s := Following(START, events);
      && !s.refused && s.cursor <= |s.output|
      && (!s.truncated ==> s.collected == s.output[..s.cursor])
      && (s.eof && !s.truncated ==> s.collected == s.output)
  {
    SessionHolds(START, events);
    var s := Following(START, events);
    if s.eof { assert s.output[..s.cursor] == s.output; }
  }

  /** Once a reply said eof, nothing more is ever appended. */
  lemma {:induction false} EofIsFinal(s: Session, events: seq<Event>)
    requires SessionOk(s) && s.eof
    ensures Following(s, events).output == s.output && Following(s, events).eof
    decreases |events|
  {
    if events != [] {
      SessionStep(s, events[0]);
      EofIsFinal(After(s, events[0]), events[1..]);
    }
  }

  /** Every request asks for something. */
  predicate Greedy(events: seq<Event>) { forall e :: e in events && e.Asked? ==> e.maximum > 0 }

  function Asks(events: seq<Event>): nat {
    if events == [] then 0 else (if events[0].Asked? then 1 else 0) + Asks(events[1..])
  }

  /** Of a log that has ended, a reader learns the end: as soon as it has asked, for
      something each time, once more than there are bytes left. */
  lemma {:induction false} TheEndIsLearnt(s: Session, events: seq<Event>)
    requires SessionOk(s) && s.terminal && Greedy(events) && (s.eof || Asks(events) > |s.output| - s.cursor)
    ensures Following(s, events).eof
    decreases |events|
  {
    if events != [] {
      assert events[0] in events;
      assert forall e :: e in events[1..] ==> e in events;
      SessionStep(s, events[0]);
      TheEndIsLearnt(After(s, events[0]), events[1..]);
    }
  }

  /** The reader is never more than a mebibyte behind when it asks. */
  predicate KeepsUp(s: Session, events: seq<Event>)
    decreases |events|
  {
    events != [] ==>
      (events[0].Asked? ==> |s.output| <= s.cursor + MAX_LOG_BYTES) && KeepsUp(After(s, events[0]), events[1..])
  }

  /** A reader misses output exactly when it once asks from more than a mebibyte behind. */
  lemma {:induction false} TruncatedExactly(s: Session, events: seq<Event>)
    requires SessionOk(s)
    ensures Following(s, events).truncated <==> s.truncated || !KeepsUp(s, events)
    decreases |events|
  {
    if events != [] {
      SessionStep(s, events[0]);
      TruncatedExactly(After(s, events[0]), events[1..]);
    }
  }

  // ---- The terminal agent's history ------------------------------------------

  const BUFFER_SIZE: nat := 262144

  class TerminalHistory {
    var history: array<byte>
    var historyLength: nat
    ghost var output: bytes

    ghost predicate Valid()
      reads this, history
    {
      history.Length == BUFFER_SIZE && historyLength <= BUFFER_SIZE && history[..historyLength] == Last(output, BUFFER_SIZE)
    }

    constructor ()
      ensures Valid() && output == [] && fresh(history)
    {
      history := new byte[BUFFER_SIZE];
      historyLength, output := 0, [];
    }

    /** Moves the bytes from `from` to `from + count` to the front of the buffer. */
    method MoveToFront(from: nat, count: nat)
      requires from + count <= history.Length
      modifies history
      ensures history[..count] == old(history[from..from + count])
    {
      for i := 0 to count
        invariant history[..i] == old(history[from..from + i])
        invariant forall j :: i <= j < history.Length ==> history[j] == old(history[j])
      {
        history[i] := history[from + i];
      }
    }

    method CopyIn(at: nat, data: bytes)
      requires at + |data| <= history.Length
      modifies history
      ensures history[..at + |data|] == old(history[..at]) + data
    {
      for i := 0 to |data|
        invariant history[..at + i] == old(history[..at]) + data[..i]
      {
        history[at + i] := data[i];
        assert history[..at + i + 1] == history[..at + i] + [data[i]];
      }
    }

    /** Forgets the oldest bytes when `length` more would not fit. */
    method MakeRoom(length: nat)
      requires history.Length == BUFFER_SIZE && historyLength <= BUFFER_SIZE && length <= BUFFER_SIZE
      modifies this`historyLength, history
      ensures historyLength + length <= BUFFER_SIZE
      ensures history[..historyLength] == Last(old(history[..historyLength]), BUFFER_SIZE - length)
    {
      ghost var kept := history[..historyLength];
      if historyLength + length > BUFFER_SIZE {
        var remove := historyLength + length - BUFFER_SIZE;
        MoveToFront(remove, historyLength - remove);
        historyLength := historyLength - remove;
        assert history[..historyLength] == kept[remove..];
      }
    }

    /** Every caller passes at most one read buffer, far less than the history holds. */
    method Remember(data: bytes)
      requires Valid() && |data| <= BUFFER_SIZE
      modifies this`historyLength, this`output, history
      ensures Valid() && output == old(output) + data
    {
      LastWithRoom(output, data, BUFFER_SIZE);
      MakeRoom(|data|);
      CopyIn(historyLength, data);
      historyLength := historyLength + |data|;
      output := output + data;
    }
  }

  lemma LastWithRoom<T>(s: seq<T>, more: seq<T>, n: nat)
    requires |more| <= n
    ensures Last(Last(s, n), n - |more|) + more == Last(s + more, n)
  {
  }
}
