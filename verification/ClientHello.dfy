/** The wire format of a TLS ClientHello (section 4.1.2 of RFC 8446) carried in
    plaintext records (section 5.1), with the server_name extension of section 3 of
    RFC 6066: what a client writes, independent of how the proxy reads it. */
module ClientHello {
  import opened Basics

  const CLIENT_HELLO: byte := 1
  const HANDSHAKE_RECORD: byte := 22
  const SERVER_NAME: nat := 0
  const ENCRYPTED_CLIENT_HELLO: nat := 0xfe0d
  const MAX_RECORD_PAYLOAD: nat := 16 * 1024 + 256

  datatype Extension = Extension(kind: nat, body: bytes)

  datatype Hello = Hello(
    version: nat, random: bytes, sessionId: bytes, cipherSuites: bytes, compression: bytes,
    extensions: seq<Extension>)

  datatype Record = Record(version: nat, payload: bytes)

  function U16(n: nat): (b: bytes)
    requires n < 0x1_0000
    ensures |b| == 2
  {
    [(n / 256) as byte, (n % 256) as byte]
  }

  function U24(n: nat): (b: bytes)
    requires n < 0x100_0000
    ensures |b| == 3
  {
    [(n / 256 / 256) as byte, (n / 256 % 256) as byte, (n % 256) as byte]
  }

  function ReadU16(b: bytes, at: nat): (n: nat)
    requires at + 2 <= |b|
    ensures n < 0x1_0000 && U16(n) == b[at..at + 2]
  {
    assert b[at..at + 2] == [b[at], b[at + 1]];
    (b[at] as int) * 256 + b[at + 1] as int
  }

  function ReadU24(b: bytes, at: nat): (n: nat)
    requires at + 3 <= |b|
    ensures n < 0x100_0000 && U24(n) == b[at..at + 3]
  {
    assert b[at..at + 3] == [b[at], b[at + 1], b[at + 2]];
    TakeByte(b[at] as int * 256 + b[at + 1] as int, b[at + 2]);
    TakeByte(b[at] as int, b[at + 1]);
    ((b[at] as int) * 256 + b[at + 1] as int) * 256 + b[at + 2] as int
  }

  lemma TakeByte(high: nat, low: byte)
    ensures (high * 256 + low as int) / 256 == high && (high * 256 + low as int) % 256 == low as int
  {
  }

  lemma ReadWrittenU16(n: nat, back: bytes)
    requires n < 0x1_0000
    ensures var b := U16(n) + back; |b| >= 2 && ReadU16(b, 0) == n && b[2..] == back
  {
  }

  lemma WriteReadU16(b: bytes)
    requires |b| >= 2
    ensures b == U16(ReadU16(b, 0)) + b[2..]
  {
  }

  lemma ReadWrittenU24(n: nat, back: bytes)
    requires n < 0x100_0000
    ensures var b := U24(n) + back; |b| >= 3 && ReadU24(b, 0) == n && b[3..] == back
  {
  }

  // ---- Writing -------------------------------------------------------------

  predicate GoodExtension(e: Extension) { e.kind < 0x1_0000 && |e.body| < 0x1_0000 }

  predicate GoodExtensions(es: seq<Extension>) { forall e :: e in es ==> GoodExtension(e) }

  function WriteExtension(e: Extension): (b: bytes)
    requires GoodExtension(e)
    ensures |b| == 4 + |e.body|
  {
    U16(e.kind) + (U16(|e.body|) + e.body)
  }

  function WriteExtensions(es: seq<Extension>): bytes
    requires GoodExtensions(es)
  {
    if es == [] then [] else WriteExtension(es[0]) + WriteExtensions(es[1..])
  }

  /** The fields in front of the extensions are well-formed. */
  predicate GoodFields(h: Hello) {
    && 0x0301 <= h.version <= 0x0303
    && |h.random| == 32
    && |h.sessionId| <= 32
    && 2 <= |h.cipherSuites| < 0x1_0000 && |h.cipherSuites| % 2 == 0
    && 1 <= |h.compression| < 256
  }

  predicate GoodHello(h: Hello) {
    GoodFields(h) && GoodExtensions(h.extensions) && |WriteExtensions(h.extensions)| < 0x1_0000
  }

  /** The fields of a hello, each in front of what follows it. */
  function WriteRandom(version: nat, random: bytes, tail: bytes): bytes
    requires version < 0x1_0000
  {
    U16(version) + (random + tail)
  }

  function WriteSessionId(id: bytes, tail: bytes): bytes
    requires |id| < 256
  {
    [|id| as byte] + (id + tail)
  }

  function WriteCipherSuites(suites: bytes, tail: bytes): bytes
    requires |suites| < 0x1_0000
  {
    U16(|suites|) + (suites + tail)
  }

  function WriteCompression(methods: bytes, block: bytes): bytes
    requires |methods| < 256 && |block| < 0x1_0000
  {
    [|methods| as byte] + (methods + (U16(|block|) + block))
  }

  /** The fields of `h` in front of an extension block. */
  function WriteFields(h: Hello, block: bytes): bytes
    requires GoodFields(h) && |block| < 0x1_0000
  {
    WriteRandom(h.version, h.random,
      WriteSessionId(h.sessionId, WriteCipherSuites(h.cipherSuites, WriteCompression(h.compression, block))))
  }

  function WriteHello(h: Hello): bytes
    requires GoodHello(h)
  {
    WriteFields(h, WriteExtensions(h.extensions))
  }

  lemma HelloSize(h: Hello)
    requires GoodHello(h)
    ensures |WriteHello(h)| < 0x4_0000
  {
  }

  /** The handshake message: type, three-byte length, body. */
  function WriteHandshake(h: Hello): (b: bytes)
    requires GoodHello(h)
    ensures |b| >= 4 && b[0] == CLIENT_HELLO && ReadU24(b[1..], 0) + 4 == |b| && b[4..] == WriteHello(h)
  {
    HelloSize(h);
    var body := WriteHello(h);
    ReadWrittenU24(|body|, body);
    assert ([CLIENT_HELLO] + (U24(|body|) + body))[1..] == U24(|body|) + body;
    [CLIENT_HELLO] + (U24(|body|) + body)
  }

  predicate GoodRecord(r: Record) {
    0x0301 <= r.version <= 0x0304 && 1 <= |r.payload| <= MAX_RECORD_PAYLOAD
  }

  predicate GoodRecords(rs: seq<Record>) { forall r :: r in rs ==> GoodRecord(r) }

  function WriteRecord(r: Record): (b: bytes)
    requires GoodRecord(r)
    ensures |b| == 5 + |r.payload|
  {
    [HANDSHAKE_RECORD] + (U16(r.version) + (U16(|r.payload|) + r.payload))
  }

  function WriteRecords(rs: seq<Record>): bytes
    requires GoodRecords(rs)
  {
    if rs == [] then [] else WriteRecord(rs[0]) + WriteRecords(rs[1..])
  }

  function Payloads(rs: seq<Record>): bytes {
    if rs == [] then [] else rs[0].payload + Payloads(rs[1..])
  }

  // ---- Server names --------------------------------------------------------

  /** Printable ASCII of 1 to 253 bytes, without a trailing dot. */
  predicate GoodName(name: bytes) {
    1 <= |name| <= 253 && (forall c :: c in name ==> 0x21 <= c <= 0x7e) && name[|name| - 1] != 46
  }

  function WriteServerName(name: bytes): bytes
    requires |name| < 0xfff0
  {
    U16(|name| + 3) + ([0] + (U16(|name|) + name))
  }

  /** Turns a written name into the form names are compared in; none when it is not an
      acceptable public host name. */
  type Normalize = bytes -> Option<bytes>

  /** The extensions name the expected host exactly once, and hide nothing. */
  ghost predicate NamesIn(es: seq<Extension>, expected: bytes, norm: Normalize) {
    && (forall e :: e in es ==> e.kind != ENCRYPTED_CLIENT_HELLO)
    && exists i :: 0 <= i < |es| && NamedBy(es, i, expected, norm)
  }

  /** A well-formed hello for the expected host. */
  ghost predicate Acceptable(h: Hello, expected: bytes, norm: Normalize) {
    GoodHello(h) && NamesIn(h.extensions, expected, norm)
  }

  ghost predicate NamedBy(es: seq<Extension>, i: nat, expected: bytes, norm: Normalize)
    requires i < |es|
  {
    && es[i].kind == SERVER_NAME
    && (forall j :: 0 <= j < |es| && j != i ==> es[j].kind != SERVER_NAME)
    && (exists name :: GoodName(name) && es[i].body == WriteServerName(name) && norm(name) == Some(expected))
  }
}
