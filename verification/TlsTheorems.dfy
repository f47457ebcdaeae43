/** The inspector accepts exactly the record sequences that carry one acceptable
    ClientHello, and its verdict does not depend on how the bytes arrive. */
module TlsTheorems {
  import opened Basics
  import opened ClientHello
  import opened TlsInspector

  // ---- Server names --------------------------------------------------------

  lemma ServerNameAccepted(name: bytes, norm: Normalize, normal: bytes)
    requires GoodName(name) && norm(name) == Some(normal)
    ensures ParseServerName(WriteServerName(name), norm) == Ok(normal)
  {
    var body := WriteServerName(name);
    ReadWrittenU16(|name| + 3, [0] + (U16(|name|) + name));
    ReadWrittenU16(|name|, name);
    assert body[2..] == [0] + (U16(|name|) + name);
    assert body[3..] == U16(|name|) + name;
    assert body[5..] == name;
  }

  lemma ServerNameUnderstood(body: bytes, norm: Normalize)
    requires ParseServerName(body, norm).Ok?
    ensures GoodName(body[5..]) && body == WriteServerName(body[5..])
    ensures norm(body[5..]) == Some(ParseServerName(body, norm).value)
  {
    WriteReadU16(body);
    WriteReadU16(body[3..]);
    assert body[2..] == [body[2]] + body[3..];
    assert body[3..][2..] == body[5..];
  }

  // ---- Extension blocks ----------------------------------------------------

  /** Reading `es` after `sni` has been seen ends with `found`. */
  ghost predicate Reads(es: seq<Extension>, sni: Option<bytes>, found: Option<bytes>, norm: Normalize) {
    if es == [] then found == sni
    else
      && es[0].kind != ENCRYPTED_CLIENT_HELLO
      && if es[0].kind == SERVER_NAME
         then sni.None? && exists name ::
                GoodName(name) && es[0].body == WriteServerName(name) && norm(name).Some?
                && Reads(es[1..], norm(name), found, norm)
         else Reads(es[1..], sni, found, norm)
  }

  lemma OneExtension(e: Extension, back: bytes)
    requires GoodExtension(e)
    ensures var b := WriteExtension(e) + back;
      |b| >= 4 && ReadU16(b, 0) == e.kind && ReadU16(b[2..], 0) == |e.body| && |b| >= 4 + |e.body|
      && b[4..4 + |e.body|] == e.body && b[4 + |e.body|..] == back
  {
    var b := WriteExtension(e) + back;
    ReadWrittenU16(e.kind, U16(|e.body|) + e.body);
    assert b[2..] == U16(|e.body|) + (e.body + back);
    ReadWrittenU16(|e.body|, e.body + back);
  }

  lemma {:induction false} WrittenExtensionsScan(es: seq<Extension>, sni: Option<bytes>, found: Option<bytes>, norm: Normalize)
    requires GoodExtensions(es) && Reads(es, sni, found, norm)
    ensures ScanExtensions(WriteExtensions(es), sni, norm) == Ok(found)
  {
    if es != [] {
      OneExtension(es[0], WriteExtensions(es[1..]));
      if es[0].kind == SERVER_NAME {
        var name :| GoodName(name) && es[0].body == WriteServerName(name) && norm(name).Some?
                    && Reads(es[1..], norm(name), found, norm);
        ServerNameAccepted(name, norm, norm(name).value);
        WrittenExtensionsScan(es[1..], norm(name), found, norm);
      } else {
        WrittenExtensionsScan(es[1..], sni, found, norm);
      }
    }
  }

  /** The extensions of a well-formed block. */
  function Parsed(rest: bytes): seq<Extension> {
    if |rest| < 4 || |rest| < 4 + ReadU16(rest[2..], 0) then []
    else
      var length := ReadU16(rest[2..], 0);
      [Extension(ReadU16(rest, 0), rest[4..4 + length])] + Parsed(rest[4 + length..])
  }

  lemma ExtensionInFront(e: Extension, tail: bytes)
    requires GoodExtension(e)
    ensures WriteExtension(e) + tail == U16(e.kind) + (U16(|e.body|) + (e.body + tail))
  {
    Regroup(U16(|e.body|), e.body, tail);
    Regroup(U16(e.kind), U16(|e.body|) + e.body, tail);
  }

  lemma ExtensionRead(rest: bytes, length: nat)
    requires |rest| >= 4 + length && length == ReadU16(rest[2..], 0)
    ensures var e := Extension(ReadU16(rest, 0), rest[4..4 + length]);
      GoodExtension(e) && rest == WriteExtension(e) + rest[4 + length..]
  {
    var body, tail := rest[4..4 + length], rest[4 + length..];
    WriteReadU16(rest);
    WriteReadU16(rest[2..]);
    assert rest[2..][2..] == body + tail;
    ExtensionInFront(Extension(ReadU16(rest, 0), body), tail);
  }

  /** The first extension of a block that has one, and what follows it. */
  lemma ParsedFirst(rest: bytes)
    requires |rest| >= 4 && |rest| >= 4 + ReadU16(rest[2..], 0)
    ensures var length := ReadU16(rest[2..], 0); var e := Extension(ReadU16(rest, 0), rest[4..4 + length]);
      GoodExtension(e) && rest == WriteExtension(e) + rest[4 + length..] && Parsed(rest) == [e] + Parsed(rest[4 + length..])
  {
    ExtensionRead(rest, ReadU16(rest[2..], 0));
  }

  lemma WrittenFirst(e: Extension, es: seq<Extension>)
    requires GoodExtension(e) && GoodExtensions(es)
    ensures GoodExtensions([e] + es) && WriteExtensions([e] + es) == WriteExtension(e) + WriteExtensions(es)
  {
    assert ([e] + es)[1..] == es;
  }

  lemma {:induction false} ScannedExtensionsWritten(rest: bytes, sni: Option<bytes>, norm: Normalize)
    requires ScanExtensions(rest, sni, norm).Ok?
    ensures GoodExtensions(Parsed(rest)) && WriteExtensions(Parsed(rest)) == rest
    decreases |rest|
  {
    if rest != [] {
      var length := ReadU16(rest[2..], 0);
      var body, tail := rest[4..4 + length], rest[4 + length..];
      ParsedFirst(rest);
      ScannedExtensionsWritten(tail, if ReadU16(rest, 0) == SERVER_NAME then Some(ParseServerName(body, norm).value) else sni, norm);
      WrittenFirst(Extension(ReadU16(rest, 0), body), Parsed(tail));
    }
  }

  lemma ReadsFirst(e: Extension, es: seq<Extension>, sni: Option<bytes>, found: Option<bytes>, norm: Normalize)
    requires e.kind != ENCRYPTED_CLIENT_HELLO
    requires e.kind == SERVER_NAME ==>
      && sni.None? && ParseServerName(e.body, norm).Ok?
      && Reads(es, Some(ParseServerName(e.body, norm).value), found, norm)
    requires e.kind != SERVER_NAME ==> Reads(es, sni, found, norm)
    ensures Reads([e] + es, sni, found, norm)
  {
    assert ([e] + es)[1..] == es;
    if e.kind == SERVER_NAME { ServerNameUnderstood(e.body, norm); }
  }

  lemma {:induction false} ScannedExtensionsRead(rest: bytes, sni: Option<bytes>, norm: Normalize)
    requires ScanExtensions(rest, sni, norm).Ok?
    ensures Reads(Parsed(rest), sni, ScanExtensions(rest, sni, norm).value, norm)
    decreases |rest|
  {
    if rest != [] {
      var length := ReadU16(rest[2..], 0);
      var body, tail := rest[4..4 + length], rest[4 + length..];
      ParsedFirst(rest);
      ScannedExtensionsRead(tail, if ReadU16(rest, 0) == SERVER_NAME then Some(ParseServerName(body, norm).value) else sni, norm);
      ReadsFirst(Extension(ReadU16(rest, 0), body), Parsed(tail), sni, ScanExtensions(rest, sni, norm).value, norm);
    }
  }

  /** Written extensions are parsed back. */
  lemma {:induction false} ParsedWritten(es: seq<Extension>)
    requires GoodExtensions(es)
    ensures Parsed(WriteExtensions(es)) == es
  {
    if es != [] {
      OneExtension(es[0], WriteExtensions(es[1..]));
      ParsedFirst(WriteExtensions(es));
      ParsedWritten(es[1..]);
    }
  }

  lemma {:induction false} ReadsAfterName(es: seq<Extension>, name: bytes, found: Option<bytes>, norm: Normalize)
    ensures Reads(es, Some(name), found, norm) <==>
      found == Some(name) && forall e :: e in es ==> e.kind != ENCRYPTED_CLIENT_HELLO && e.kind != SERVER_NAME
  {
    if es != [] {
      ReadsAfterName(es[1..], name, found, norm);
      assert forall e :: e in es <==> e == es[0] || e in es[1..];
    }
  }

  lemma {:induction false} ReadsIsNames(es: seq<Extension>, expected: bytes, norm: Normalize)
    ensures Reads(es, None, Some(expected), norm) <==> NamesIn(es, expected, norm)
  {
    if es != [] {
      assert forall e :: e in es <==> e == es[0] || e in es[1..];
      if es[0].kind == SERVER_NAME {
        ReadsIsNamesHere(es, expected, norm);
      } else {
        ReadsIsNames(es[1..], expected, norm);
        if i :| 0 <= i < |es[1..]| && NamedBy(es[1..], i, expected, norm) {
          NamedBySuffix(es, i + 1, expected, norm);
        }
        if i :| 0 <= i < |es| && NamedBy(es, i, expected, norm) {
          NamedBySuffix(es, i, expected, norm);
        }
      }
    }
  }

  lemma NamedBySuffix(es: seq<Extension>, i: nat, expected: bytes, norm: Normalize)
    requires 1 <= i < |es| && es[0].kind != SERVER_NAME
    ensures NamedBy(es, i, expected, norm) <==> NamedBy(es[1..], i - 1, expected, norm)
  {
    if NamedBy(es[1..], i - 1, expected, norm) {
      forall j | 0 <= j < |es| && j != i ensures es[j].kind != SERVER_NAME {
        if j > 0 { assert es[1..][j - 1] == es[j]; }
      }
    }
  }

  lemma ReadsIsNamesHere(es: seq<Extension>, expected: bytes, norm: Normalize)
    requires es != [] && es[0].kind == SERVER_NAME
    ensures Reads(es, None, Some(expected), norm) <==> NamesIn(es, expected, norm)
  {
    assert forall e :: e in es <==> e == es[0] || e in es[1..];
    if Reads(es, None, Some(expected), norm) {
      var name :| GoodName(name) && es[0].body == WriteServerName(name) && norm(name).Some?
                  && Reads(es[1..], norm(name), Some(expected), norm);
      ReadsAfterName(es[1..], norm(name).value, Some(expected), norm);
      forall j | 0 <= j < |es| && j != 0 ensures es[j].kind != SERVER_NAME { assert es[j] in es[1..]; }
      assert NamedBy(es, 0, expected, norm);
    }
    if NamesIn(es, expected, norm) {
      var i :| 0 <= i < |es| && NamedBy(es, i, expected, norm);
      assert i == 0;
      var name :| GoodName(name) && es[0].body == WriteServerName(name) && norm(name) == Some(expected);
      ReadsAfterName(es[1..], expected, Some(expected), norm);
    }
  }

  lemma WrittenBlockValid(es: seq<Extension>, expected: bytes, norm: Normalize)
    requires GoodExtensions(es) && NamesIn(es, expected, norm)
    ensures ValidateExtensions(WriteExtensions(es), expected, norm).None?
  {
    ReadsIsNames(es, expected, norm);
    WrittenExtensionsScan(es, None, Some(expected), norm);
  }

  lemma ValidBlockWritten(block: bytes, expected: bytes, norm: Normalize)
    requires ValidateExtensions(block, expected, norm).None?
    ensures GoodExtensions(Parsed(block)) && block == WriteExtensions(Parsed(block))
    ensures NamesIn(Parsed(block), expected, norm)
  {
    var scanned := ScanExtensions(block, None, norm);
    assert scanned == Ok(Some(expected));
    var es := Parsed(block);
    ScannedExtensionsWritten(block, None, norm);
    ScannedExtensionsRead(block, None, norm);
    ReadsIsNames(es, expected, norm);
  }

  // ---- Hellos --------------------------------------------------------------

  lemma RandomWritten(version: nat, random: bytes, back: bytes)
    requires 0x0301 <= version <= 0x0303 && |random| == 32
    ensures AfterRandom(WriteRandom(version, random, back)) == Some(back)
  {
    ReadWrittenU16(version, random + back);
    assert (U16(version) + (random + back))[34..] == back;
  }

  lemma SessionIdWritten(id: bytes, back: bytes)
    requires |id| <= 32
    ensures AfterSessionId(WriteSessionId(id, back)) == Some(back)
  {
    assert ([|id| as byte] + (id + back))[1 + |id|..] == back;
  }

  lemma CipherSuitesWritten(suites: bytes, back: bytes)
    requires 2 <= |suites| < 0x1_0000 && |suites| % 2 == 0
    ensures AfterCipherSuites(WriteCipherSuites(suites, back)) == Some(back)
  {
    ReadWrittenU16(|suites|, suites + back);
    assert (U16(|suites|) + (suites + back))[2 + |suites|..] == back;
  }

  lemma BlockWritten(compression: bytes, block: bytes)
    requires 1 <= |compression| < 256 && |block| < 0x1_0000
    ensures BlockAfterSuites(WriteCompression(compression, block)) == Some(block)
  {
    var lengths := U16(|block|) + block;
    ReadWrittenU16(|block|, block);
    assert ([|compression| as byte] + (compression + lengths))[1 + |compression|..] == lengths;
  }

  lemma WrittenBlock(h: Hello, block: bytes)
    requires GoodFields(h) && |block| < 0x1_0000
    ensures ExtensionBlock(WriteFields(h, block)) == Some(block)
  {
    var methods := WriteCompression(h.compression, block);
    var suites := WriteCipherSuites(h.cipherSuites, methods);
    BlockWritten(h.compression, block);
    CipherSuitesWritten(h.cipherSuites, methods);
    SessionIdWritten(h.sessionId, suites);
    RandomWritten(h.version, h.random, WriteSessionId(h.sessionId, suites));
  }

  lemma RandomRead(b: bytes)
    requires AfterRandom(b).Some?
    ensures 0x0301 <= ReadU16(b, 0) <= 0x0303
    ensures b == WriteRandom(ReadU16(b, 0), b[2..34], AfterRandom(b).value)
  {
    WriteReadU16(b);
    assert b[2..] == b[2..34] + b[34..];
  }

  lemma SessionIdRead(b: bytes)
    requires AfterSessionId(b).Some?
    ensures b[0] <= 32 && 1 + b[0] as int <= |b|
    ensures b == WriteSessionId(b[1..1 + b[0] as int], AfterSessionId(b).value)
  {
  }

  lemma CipherSuitesRead(b: bytes)
    requires AfterCipherSuites(b).Some?
    ensures var n := ReadU16(b, 0); 2 <= n && n % 2 == 0 && 2 + n <= |b|
    ensures b == WriteCipherSuites(b[2..2 + ReadU16(b, 0)], AfterCipherSuites(b).value)
  {
    WriteReadU16(b);
    var n := ReadU16(b, 0);
    assert b[2..] == b[2..2 + n] + b[2 + n..];
  }

  lemma BlockRead(b: bytes)
    requires BlockAfterSuites(b).Some?
    ensures 1 <= b[0] && 1 + b[0] as int <= |b| && |BlockAfterSuites(b).value| < 0x1_0000
    ensures b == WriteCompression(b[1..1 + b[0] as int], BlockAfterSuites(b).value)
  {
    var n := b[0] as int;
    var lengths := b[1 + n..];
    WriteReadU16(lengths);
    assert b == [b[0]] + (b[1..1 + n] + lengths);
  }

  /** The hello in a byte string whose fields have passed the checks. */
  function ReadHello(b: bytes): Hello
    requires ExtensionBlock(b).Some?
  {
    var session := AfterRandom(b).value;
    var suites := AfterSessionId(session).value;
    var methods := AfterCipherSuites(suites).value;
    Hello(ReadU16(b, 0), b[2..34], session[1..1 + session[0] as int], suites[2..2 + ReadU16(suites, 0)],
          methods[1..1 + methods[0] as int], Parsed(ExtensionBlock(b).value))
  }

  lemma ReadFieldsWritten(b: bytes)
    requires ExtensionBlock(b).Some?
    ensures |ExtensionBlock(b).value| < 0x1_0000
    ensures GoodFields(ReadHello(b)) && WriteFields(ReadHello(b), ExtensionBlock(b).value) == b
  {
    var session := AfterRandom(b).value;
    var suites := AfterSessionId(session).value;
    var methods := AfterCipherSuites(suites).value;
    FieldsRead(ReadHello(b), b, session, suites, methods, ExtensionBlock(b).value);
  }

  lemma FieldsRead(h: Hello, b: bytes, session: bytes, suites: bytes, methods: bytes, block: bytes)
    requires AfterRandom(b) == Some(session) && AfterSessionId(session) == Some(suites)
    requires AfterCipherSuites(suites) == Some(methods) && BlockAfterSuites(methods) == Some(block)
    requires h.version == ReadU16(b, 0) && h.random == b[2..34] && h.sessionId == session[1..1 + session[0] as int]
    requires h.cipherSuites == suites[2..2 + ReadU16(suites, 0)]
    requires |methods| >= 1 && 1 + methods[0] as int <= |methods| && h.compression == methods[1..1 + methods[0] as int]
    ensures |block| < 0x1_0000 && GoodFields(h) && WriteFields(h, block) == b
  {
    RandomRead(b);
    SessionIdRead(session);
    CipherSuitesRead(suites);
    BlockRead(methods);
    FieldsMakeHello(h, session, suites, methods, block, b);
  }

  lemma FieldsMakeHello(h: Hello, session: bytes, suites: bytes, methods: bytes, block: bytes, b: bytes)
    requires GoodFields(h) && |block| < 0x1_0000
    requires methods == WriteCompression(h.compression, block)
    requires suites == WriteCipherSuites(h.cipherSuites, methods)
    requires session == WriteSessionId(h.sessionId, suites)
    requires b == WriteRandom(h.version, h.random, session)
    ensures WriteFields(h, block) == b
  {
  }

  /** The encoding of a well-formed hello validates exactly when the hello names the
      expected host once and hides nothing. */
  lemma WrittenHelloValid(h: Hello, expected: bytes, norm: Normalize)
    requires GoodHello(h)
    ensures Validate(WriteHello(h), expected, norm).None? <==> Acceptable(h, expected, norm)
  {
    WrittenBlock(h, WriteExtensions(h.extensions));
    if Acceptable(h, expected, norm) {
      WrittenBlockValid(h.extensions, expected, norm);
    }
    if Validate(WriteHello(h), expected, norm).None? {
      ValidBlockWritten(WriteExtensions(h.extensions), expected, norm);
      ParsedWritten(h.extensions);
    }
  }

  lemma ValidHelloWritten(b: bytes, expected: bytes, norm: Normalize)
    requires Validate(b, expected, norm).None?
    ensures ExtensionBlock(b).Some? && Acceptable(ReadHello(b), expected, norm) && WriteHello(ReadHello(b)) == b
  {
    ValidBlockWritten(ExtensionBlock(b).value, expected, norm);
    ReadFieldsWritten(b);
  }

  // ---- Handshakes and records ----------------------------------------------

  lemma WholeHandshakeAccepted(h: Hello, expected: bytes, maxBytes: int, norm: Normalize)
    requires Acceptable(h, expected, norm) && |WriteHandshake(h)| <= maxBytes
    ensures Decide(WriteHandshake(h), expected, maxBytes, norm) == Accept
  {
    WrittenHelloValid(h, expected, norm);
  }

  lemma PartOfHandshakeWaits(h: Hello, part: bytes, expected: bytes, maxBytes: int, norm: Normalize)
    requires GoodHello(h) && |WriteHandshake(h)| <= maxBytes && part < WriteHandshake(h)
    ensures Decide(part, expected, maxBytes, norm) == More
  {
    if |part| >= 4 { assert part[1..][..3] == WriteHandshake(h)[1..][..3]; }
  }

  lemma AcceptedHandshakeWritten(handshake: bytes, expected: bytes, maxBytes: int, norm: Normalize)
    requires Decide(handshake, expected, maxBytes, norm) == Accept
    ensures exists h :: Acceptable(h, expected, norm) && WriteHandshake(h) == handshake
  {
    var body := handshake[4..];
    ValidHelloWritten(body, expected, norm);
    var h := ReadHello(body);
    HandshakeSplit(handshake, body);
    assert WriteHandshake(h) == handshake;
  }

  lemma HandshakeSplit(handshake: bytes, body: bytes)
    requires |handshake| >= 4 && handshake[0] == CLIENT_HELLO && body == handshake[4..]
    requires ReadU24(handshake[1..], 0) + 4 == |handshake|
    ensures |body| < 0x100_0000 && handshake == [CLIENT_HELLO] + (U24(|body|) + body)
  {
    assert handshake[1..] == handshake[1..][..3] + body;
  }

  lemma OneRecord(r: Record, back: bytes, consumed: nat, maxBytes: int)
    requires GoodRecord(r) && consumed + 5 + |r.payload| <= maxBytes
    ensures var b := WriteRecord(r) + back;
      && ReadHeader(b, consumed, maxBytes) == Payload(|r.payload|)
      && b[5..5 + |r.payload|] == r.payload && b[5 + |r.payload|..] == back
      && ReadU16(b[1..], 0) == r.version && ReadU16(b[3..], 0) == |r.payload|
  {
    var b := WriteRecord(r) + back;
    assert b[1..] == U16(r.version) + (U16(|r.payload|) + (r.payload + back));
    ReadWrittenU16(r.version, U16(|r.payload|) + (r.payload + back));
    assert b[3..] == U16(|r.payload|) + (r.payload + back);
    ReadWrittenU16(|r.payload|, r.payload + back);
  }

  /** One turn of the record loop on a written record. */
  lemma ScanOneRecord(r: Record, back: bytes, consumed: nat, gathered: bytes, maxBytes: int, judge: Judge)
    requires GoodRecord(r) && consumed + 5 + |r.payload| <= maxBytes
    ensures Scan(WriteRecord(r) + back, consumed, gathered, maxBytes, judge) ==
      match judge(gathered + r.payload)
      case More => Scan(back, consumed + 5 + |r.payload|, gathered + r.payload, maxBytes, judge)
      case Accept => Complete(consumed + 5 + |r.payload|)
      case Reject(e) => Failed(e)
  {
    OneRecord(r, back, consumed, maxBytes);
  }

  lemma FirstRecord(rs: seq<Record>, tail: bytes)
    requires rs != [] && GoodRecords(rs)
    ensures WriteRecords(rs) + tail == WriteRecord(rs[0]) + (WriteRecords(rs[1..]) + tail)
    ensures |WriteRecords(rs)| == 5 + |rs[0].payload| + |WriteRecords(rs[1..])|
    ensures Payloads(rs) == rs[0].payload + Payloads(rs[1..])
    ensures rs[1..] != [] ==> Payloads(rs[1..]) != []
  {
    if rs[1..] != [] { assert GoodRecord(rs[1]) && rs[1..][0] == rs[1]; }
  }

  /** The outcome of a decision on all that has been gathered up to `end`. */
  function OutcomeOf(decision: Decision, end: nat): Outcome {
    match decision
    case More => Incomplete
    case Accept => Complete(end)
    case Reject(e) => Failed(e)
  }

  /** From any point of the stream: the remaining records of a message that is judged
      whole and never before, then anything, are read to the end of the last of them. */
  lemma {:induction false} RecordsJudged(input: bytes, rs: seq<Record>, tail: bytes, consumed: nat, gathered: bytes,
                                         whole: bytes, end: nat, maxBytes: int, judge: Judge)
    requires rs != [] && GoodRecords(rs) && input == WriteRecords(rs) + tail && gathered + Payloads(rs) == whole
    requires !judge(whole).More? && forall part :: part < whole ==> judge(part).More?
    requires end == consumed + |WriteRecords(rs)| <= maxBytes
    ensures From(input, consumed, gathered, maxBytes, judge) == OutcomeOf(judge(whole), end)
    decreases |rs|
  {
    var r, rest := rs[0], rs[1..];
    var back, now, next := WriteRecords(rest) + tail, gathered + r.payload, consumed + 5 + |r.payload|;
    MessageAfterRecord(rs, tail, gathered, whole);
    VerdictAfterRecord(input, r, back, consumed, gathered, maxBytes, judge, next, now);
    if rest != [] {
      RecordsJudged(back, rest, tail, next, now, whole, end, maxBytes, judge);
    }
  }

  /** The verdict from a point of the stream on. */
  ghost function From(rest: bytes, consumed: nat, gathered: bytes, maxBytes: int, judge: Judge): Outcome {
    Scan(rest, consumed, gathered, maxBytes, judge)
  }

  lemma VerdictAfterRecord(b: bytes, r: Record, back: bytes, consumed: nat, gathered: bytes, maxBytes: int, judge: Judge,
                           next: nat, now: bytes)
    requires GoodRecord(r) && next <= maxBytes && b == WriteRecord(r) + back
    requires next == consumed + 5 + |r.payload| && now == gathered + r.payload
    ensures From(b, consumed, gathered, maxBytes, judge) ==
      if judge(now).More? then From(back, next, now, maxBytes, judge) else OutcomeOf(judge(now), next)
  {
    ScanOneRecord(r, back, consumed, gathered, maxBytes, judge);
  }

  lemma MessageAfterRecord(rs: seq<Record>, tail: bytes, gathered: bytes, whole: bytes)
    requires rs != [] && GoodRecords(rs) && gathered + Payloads(rs) == whole
    ensures var r, rest := rs[0], rs[1..];
      var now := gathered + r.payload;
      && WriteRecords(rs) + tail == WriteRecord(r) + (WriteRecords(rest) + tail)
      && |WriteRecords(rs)| == 5 + |r.payload| + |WriteRecords(rest)|
      && GoodRecord(r) && GoodRecords(rest) && now + Payloads(rest) == whole
      && (if rest == [] then now == whole else now < whole)
  {
    var rest := rs[1..];
    FirstRecord(rs, tail);
    Regroup(gathered, rs[0].payload, Payloads(rest));
  }

  lemma PayloadsAreShorter(rs: seq<Record>)
    requires GoodRecords(rs)
    ensures |Payloads(rs)| <= |WriteRecords(rs)|
  {
  }

  /** A header that passes its checks starts a record. */
  lemma HeaderStartsRecord(rest: bytes, consumed: nat, maxBytes: int)
    requires ReadHeader(rest, consumed, maxBytes).Payload?
    ensures var length := ReadHeader(rest, consumed, maxBytes).length;
      var r := Record(ReadU16(rest[1..], 0), rest[5..5 + length]);
      && consumed + 5 + length <= maxBytes && length == ReadU16(rest[3..], 0)
      && GoodRecord(r) && WriteRecord(r) == rest[..5 + length]
  {
    var length := ReadHeader(rest, consumed, maxBytes).length;
    WriteReadU16(rest[1..]);
    WriteReadU16(rest[3..]);
    assert rest[3..][..2 + length] == U16(length) + rest[5..5 + length];
    assert rest[..5 + length] == [rest[0]] + (rest[1..][..2] + rest[3..][..2 + length]);
  }

  lemma OneMoreRecord(r: Record, rs: seq<Record>)
    requires GoodRecord(r) && GoodRecords(rs)
    ensures GoodRecords([r] + rs) && WriteRecords([r] + rs) == WriteRecord(r) + WriteRecords(rs)
    ensures Payloads([r] + rs) == r.payload + Payloads(rs)
  {
    assert ([r] + rs)[1..] == rs;
  }

  /** What an accepting scan has read is a list of records whose payloads were judged whole. */
  lemma {:induction false} AcceptedRecords(rest: bytes, consumed: nat, gathered: bytes, maxBytes: int, judge: Judge, end: nat)
    returns (rs: seq<Record>)
    requires Scan(rest, consumed, gathered, maxBytes, judge) == Complete(end)
    ensures rs != [] && GoodRecords(rs) && WriteRecords(rs) <= rest && judge(gathered + Payloads(rs)) == Accept
    ensures consumed + |WriteRecords(rs)| == end <= maxBytes
    decreases |rest|
  {
    HeaderStartsRecord(rest, consumed, maxBytes);
    var length := ReadHeader(rest, consumed, maxBytes).length;
    var r, back := Record(ReadU16(rest[1..], 0), rest[5..5 + length]), rest[5 + length..];
    rs := [];
    if judge(gathered + r.payload) != Accept {
      rs := AcceptedRecords(back, consumed + 5 + length, gathered + r.payload, maxBytes, judge, end);
    }
    JoinRecords(rest, r, rs, gathered);
    rs := [r] + rs;
  }

  lemma JoinRecords(rest: bytes, r: Record, rs: seq<Record>, gathered: bytes)
    requires GoodRecord(r) && GoodRecords(rs) && 5 + |r.payload| <= |rest|
    requires WriteRecord(r) == rest[..5 + |r.payload|] && WriteRecords(rs) <= rest[5 + |r.payload|..]
    ensures GoodRecords([r] + rs) && WriteRecords([r] + rs) <= rest
    ensures |WriteRecords([r] + rs)| == 5 + |r.payload| + |WriteRecords(rs)|
    ensures gathered + Payloads([r] + rs) == gathered + r.payload + Payloads(rs)
    ensures rs == [] ==> gathered + Payloads([r] + rs) == gathered + r.payload
  {
    OneMoreRecord(r, rs);
    assert rest == rest[..5 + |r.payload|] + rest[5 + |r.payload|..];
  }

  // ---- The verdict ---------------------------------------------------------

  /** `rs` are the leading records of the input and carry the hello `h`. */
  ghost predicate Carries(input: bytes, rs: seq<Record>, h: Hello, expected: bytes, norm: Normalize) {
    && rs != [] && GoodRecords(rs) && WriteRecords(rs) <= input
    && Acceptable(h, expected, norm) && Payloads(rs) == WriteHandshake(h)
  }

  /** "Complete" means exactly that a whole number of leading records carries one
      acceptable ClientHello, and reports their encoded length. */
  lemma CompleteMeansOneAcceptableHello(input: bytes, hostname: bytes, maxBytes: int, norm: Normalize, count: nat)
    requires maxBytes >= 256 && |input| <= maxBytes && norm(hostname).Some?
    ensures Inspect(input, hostname, maxBytes, norm) == Complete(count) <==>
      exists rs, h :: Carries(input, rs, h, norm(hostname).value, norm) && count == |WriteRecords(rs)|
  {
    if Inspect(input, hostname, maxBytes, norm) == Complete(count) {
      CompleteInputCarriesHello(input, hostname, maxBytes, norm);
    }
    if rs, h :| Carries(input, rs, h, norm(hostname).value, norm) && count == |WriteRecords(rs)| {
      CarriedHelloIsComplete(input, hostname, maxBytes, norm, rs, h);
    }
  }

  lemma CompleteInputCarriesHello(input: bytes, hostname: bytes, maxBytes: int, norm: Normalize)
    requires Inspect(input, hostname, maxBytes, norm).Complete?
    ensures var count := Inspect(input, hostname, maxBytes, norm).bytesConsumed;
      exists rs, h :: Carries(input, rs, h, norm(hostname).value, norm) && count == |WriteRecords(rs)|
  {
    var expected := norm(hostname).value;
    var count := Inspect(input, hostname, maxBytes, norm).bytesConsumed;
    var rs := AcceptedRecords(input, 0, [], maxBytes, Judging(expected, maxBytes, norm), count);
    RecordsCarryHello(input, rs, expected, maxBytes, norm);
  }

  lemma RecordsCarryHello(input: bytes, rs: seq<Record>, expected: bytes, maxBytes: int, norm: Normalize)
    requires rs != [] && GoodRecords(rs) && WriteRecords(rs) <= input
    requires Decide([] + Payloads(rs), expected, maxBytes, norm) == Accept
    ensures exists h :: Carries(input, rs, h, expected, norm)
  {
    assert [] + Payloads(rs) == Payloads(rs);
    AcceptedHandshakeWritten(Payloads(rs), expected, maxBytes, norm);
    var h :| Acceptable(h, expected, norm) && WriteHandshake(h) == Payloads(rs);
    assert Carries(input, rs, h, expected, norm);
  }

  /** Any acceptable hello under any split into non-empty records, followed by anything
      within the limit, is accepted up to the end of those records. */
  lemma CarriedHelloIsComplete(input: bytes, hostname: bytes, maxBytes: int, norm: Normalize, rs: seq<Record>, h: Hello)
    requires maxBytes >= 256 && |input| <= maxBytes && norm(hostname).Some?
    requires Carries(input, rs, h, norm(hostname).value, norm)
    ensures Inspect(input, hostname, maxBytes, norm) == Complete(|WriteRecords(rs)|)
  {
    var expected := norm(hostname).value;
    var judge := Judging(expected, maxBytes, norm);
    assert Judges(judge, expected, maxBytes, norm);
    CarriedHelloIsRead(input, rs, h, expected, maxBytes, norm, judge);
  }

  lemma CarriedHelloIsRead(input: bytes, rs: seq<Record>, h: Hello, expected: bytes, maxBytes: int, norm: Normalize, judge: Judge)
    requires |input| <= maxBytes && Judges(judge, expected, maxBytes, norm) && Carries(input, rs, h, expected, norm)
    ensures From(input, 0, [], maxBytes, judge) == Complete(|WriteRecords(rs)|)
  {
    PayloadsAreShorter(rs);
    WholeHandshakeAccepted(h, expected, maxBytes, norm);
    PartsAreAwaited(h, expected, maxBytes, norm, judge);
    MessageIsJudged(input, rs, WriteHandshake(h), maxBytes, judge);
  }

  lemma PartsAreAwaited(h: Hello, expected: bytes, maxBytes: int, norm: Normalize, judge: Judge)
    requires GoodHello(h) && |WriteHandshake(h)| <= maxBytes && Judges(judge, expected, maxBytes, norm)
    ensures judge(WriteHandshake(h)) == Decide(WriteHandshake(h), expected, maxBytes, norm)
    ensures forall part :: part < WriteHandshake(h) ==> judge(part).More?
  {
    assert Gathered(WriteHandshake(h));
    forall part | part < WriteHandshake(h) ensures judge(part).More? {
      PartOfHandshakeWaits(h, part, expected, maxBytes, norm);
      assert Gathered(part);
    }
  }

  /** A whole message is judged at the end of its records, and not before. */
  lemma MessageIsJudged(input: bytes, rs: seq<Record>, whole: bytes, maxBytes: int, judge: Judge)
    requires |input| <= maxBytes && rs != [] && GoodRecords(rs) && WriteRecords(rs) <= input && Payloads(rs) == whole
    requires !judge(whole).More? && forall part :: part < whole ==> judge(part).More?
    ensures From(input, 0, [], maxBytes, judge) == OutcomeOf(judge(whole), |WriteRecords(rs)|)
  {
    var tail := input[|WriteRecords(rs)|..];
    assert input == WriteRecords(rs) + tail;
    assert [] + Payloads(rs) == whole;
    RecordsJudged(input, rs, tail, 0, [], whole, |WriteRecords(rs)|, maxBytes, judge);
  }

  lemma HeaderIsStable(rest: bytes, more: bytes, consumed: nat, maxBytes: int)
    requires !ReadHeader(rest, consumed, maxBytes).Short?
    ensures ReadHeader(rest + more, consumed, maxBytes) == ReadHeader(rest, consumed, maxBytes)
  {
    var all := rest + more;
    assert all[1..][..2] == rest[1..][..2] && all[3..][..2] == rest[3..][..2];
  }

  lemma StableRecord(rest: bytes, more: bytes, consumed: nat, gathered: bytes, maxBytes: int, judge: Judge, length: nat)
    requires ReadHeader(rest, consumed, maxBytes) == Payload(length) == ReadHeader(rest + more, consumed, maxBytes)
    requires var now, next := gathered + rest[5..5 + length], consumed + 5 + length;
      judge(now).More? ==> From(rest[5 + length..] + more, next, now, maxBytes, judge) == From(rest[5 + length..], next, now, maxBytes, judge)
    ensures From(rest + more, consumed, gathered, maxBytes, judge) == From(rest, consumed, gathered, maxBytes, judge)
  {
    assert (rest + more)[5..5 + length] == rest[5..5 + length] && (rest + more)[5 + length..] == rest[5 + length..] + more;
  }

  lemma {:induction false} ScanIsStable(rest: bytes, more: bytes, consumed: nat, gathered: bytes, maxBytes: int, judge: Judge)
    requires !From(rest, consumed, gathered, maxBytes, judge).Incomplete?
    ensures From(rest + more, consumed, gathered, maxBytes, judge) == From(rest, consumed, gathered, maxBytes, judge)
    decreases |rest|
  {
    HeaderIsStable(rest, more, consumed, maxBytes);
    var header := ReadHeader(rest, consumed, maxBytes);
    if header.Payload? {
      var now := gathered + rest[5..5 + header.length];
      if judge(now).More? {
        ScanIsStable(rest[5 + header.length..], more, consumed + 5 + header.length, now, maxBytes, judge);
      }
      StableRecord(rest, more, consumed, gathered, maxBytes, judge, header.length);
    }
  }

  /** A verdict, once given, survives every extension within the limit. */
  lemma VerdictIsStable(input: bytes, more: bytes, hostname: bytes, maxBytes: int, norm: Normalize)
    requires !Inspect(input, hostname, maxBytes, norm).Incomplete? && |input + more| <= maxBytes
    ensures Inspect(input + more, hostname, maxBytes, norm) == Inspect(input, hostname, maxBytes, norm)
  {
    if maxBytes >= 256 && norm(hostname).Some? {
      var judge := Judging(norm(hostname).value, maxBytes, norm);
      assert From(input, 0, [], maxBytes, judge) == Inspect(input, hostname, maxBytes, norm);
      ScanIsStable(input, more, 0, [], maxBytes, judge);
    }
  }

  /** Of an accepted input, a prefix is accepted exactly when it holds all the consumed
      bytes, and is incomplete otherwise. */
  lemma PrefixesOfAcceptedInput(input: bytes, cut: nat, hostname: bytes, maxBytes: int, norm: Normalize)
    requires cut <= |input| && Inspect(input, hostname, maxBytes, norm).Complete?
    ensures var verdict := Inspect(input, hostname, maxBytes, norm);
      Inspect(input[..cut], hostname, maxBytes, norm) == if cut >= verdict.bytesConsumed then verdict else Incomplete
  {
    var count := Inspect(input, hostname, maxBytes, norm).bytesConsumed;
    assert input == input[..cut] + input[cut..];
    if !Inspect(input[..cut], hostname, maxBytes, norm).Incomplete? {
      VerdictIsStable(input[..cut], input[cut..], hostname, maxBytes, norm);
      CompleteMeansOneAcceptableHello(input[..cut], hostname, maxBytes, norm, count);
    } else if cut >= count {
      CompleteMeansOneAcceptableHello(input, hostname, maxBytes, norm, count);
      var rs, h :| Carries(input, rs, h, norm(hostname).value, norm) && count == |WriteRecords(rs)|;
      CarriedHelloIsComplete(input[..cut], hostname, maxBytes, norm, rs, h);
    }
  }
}
